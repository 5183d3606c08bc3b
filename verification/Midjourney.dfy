/**
Refunds of failed Midjourney tasks. Any number of pollers work from snapshots
of the unfinished tasks that may be stale; a poller writes a task back only if
the stored status is still the one it read, and refunds only if it wrote.
*/
module Midjourney {
  import opened Prelude

  type TaskId = nat
  type UserId = nat
  type PollerId = nat

  const FAILURE := "FAILURE"
  const DONE := "100%"
  const TIMEOUT := "上游任务超时（超过1小时）"

  /** `detail` stands for the columns that are only copied and compared: prompt, state, times,
      image, video, buttons and properties. */
  datatype Row = Row(
    user: UserId, quota: int, code: int, status: string, progress: string, failReason: string, detail: string)

  datatype Response = Response(status: string, progress: string, failReason: string, detail: string)

  // ---------- handling one response item ----------

  /** A task that is unfinished after an hour counts as failed. */
  function Timed(row: Row, r: Response, overdue: bool): Response {
    if overdue && row.progress != DONE then r.(status := FAILURE, failReason := TIMEOUT) else r
  }

  /** checkMjTaskNeedUpdate */
  predicate NeedsUpdate(row: Row, r: Response) {
    row.code != 1 || row.progress != r.progress || row.status != r.status || row.failReason != r.failReason
    || row.detail != r.detail || (row.progress != DONE && r.failReason != "")
  }

  predicate Failing(r: Response) {
    (r.progress != DONE && r.failReason != "") || (r.progress == DONE && r.status == FAILURE)
  }

  /** The poller's copy after the item. */
  function Updated(row: Row, r: Response): Row {
    row.(code := 1, status := r.status, failReason := r.failReason, detail := r.detail,
         progress := if Failing(r) then DONE else r.progress)
  }

  // ---------- the system ----------

  /** `handled` are the tasks of the snapshot that items have been processed for, `due` a refund
      the poller decided on and has not made yet. */
  datatype Poller = Poller(copies: map<TaskId, Row>, handled: set<TaskId>, due: Option<TaskId>)

  datatype Payment = Payment(id: TaskId, user: UserId, quota: int)

  /** `owed` lists the won writes that decided on a refund, `payments` the quota increases made. */
  datatype State = State(
    table: map<TaskId, Row>, pollers: map<PollerId, Poller>, owed: seq<TaskId>, payments: seq<Payment>)
  {
    function PollerOf(p: PollerId): Poller {
      if p in pollers then pollers[p] else Poller(map[], {}, None)
    }
  }

  datatype Event =
    | Snapshot(poller: PollerId)
    | Item(poller: PollerId, id: TaskId, response: Response, overdue: bool, dbError: bool)
    | Refund(poller: PollerId, ok: bool)
    | BulkFail(ids: set<TaskId>)
    | NewTask(id: TaskId, row: Row)

  predicate Enabled(s: State, e: Event) {
    match e
    case Snapshot(p) => s.PollerOf(p).due.None?
    case Item(p, id, _, _, _) => s.PollerOf(p).due.None? && id in s.PollerOf(p).copies
    case Refund(p, _) => s.PollerOf(p).due.Some? && s.PollerOf(p).due.value in s.PollerOf(p).copies
    case BulkFail(_) => true
    case NewTask(id, _) => id !in s.table
  }

  /** UpdateWithStatus(pre) writes the row iff the stored status is still `pre`. */
  predicate Wins(s: State, id: TaskId, pre: string, dbError: bool) {
    !dbError && id in s.table && s.table[id].status == pre
  }

  function Effective(s: State, e: Event): Response
    requires e.Item? && Enabled(s, e)
  {
    Timed(s.PollerOf(e.poller).copies[e.id], e.response, e.overdue)
  }

  /** The item makes its poller owe a refund. */
  predicate Refunds(s: State, e: Event)
    requires e.Item? && Enabled(s, e)
  {
    var copy := s.PollerOf(e.poller).copies[e.id];
    NeedsUpdate(copy, Effective(s, e)) && Failing(Effective(s, e)) && copy.quota != 0
    && Wins(s, e.id, copy.status, e.dbError)
  }

  function Step(s: State, e: Event): State
    requires Enabled(s, e)
  {
    match e
    case Snapshot(p) =>
      s.(pollers := s.pollers[p := Poller(map id | id in s.table && s.table[id].progress != DONE :: s.table[id], {}, None)])
    case Item(p, id, _, _, dbError) =>
      var poller := s.PollerOf(p);
      var copy, r := poller.copies[id], Effective(s, e);
      if !NeedsUpdate(copy, r) then s.(pollers := s.pollers[p := poller.(handled := poller.handled + {id})])
      else
        var next := Updated(copy, r);
        State(if Wins(s, id, copy.status, dbError) then s.table[id := next] else s.table,
              s.pollers[p := Poller(poller.copies[id := next], poller.handled + {id}, if Refunds(s, e) then Some(id) else None)],
              if Refunds(s, e) then s.owed + [id] else s.owed,
              s.payments)
    case Refund(p, ok) =>
      var poller := s.PollerOf(p);
      var id := poller.due.value;
      var copy := poller.copies[id];
      s.(pollers := s.pollers[p := poller.(due := None)],
         payments := if ok && copy.quota >= 0 then s.payments + [Payment(id, copy.user, copy.quota)] else s.payments)
    case BulkFail(ids) =>
      s.(table := map id | id in s.table :: if id in ids then s.table[id].(status := FAILURE, progress := DONE) else s.table[id])
    case NewTask(id, row) => s.(table := s.table[id := row])
  }

  predicate Schedulable(s: State, events: seq<Event>)
    decreases |events|
  {
    events == [] || (Enabled(s, events[0]) && Schedulable(Step(s, events[0]), events[1..]))
  }

  function Run(s: State, events: seq<Event>): State
    requires Schedulable(s, events)
    decreases |events|
  {
    if events == [] then s else Run(Step(s, events[0]), events[1..])
  }

  /** A server that has just started over an arbitrary task table. */
  predicate Initial(s: State) {
    s.pollers == map[] && s.owed == [] && s.payments == []
  }

  // ---------- what one event does ----------

  /** What an item says, once a task that is unfinished after an hour counts as failed. */
  function StatusSaid(copy: Row, e: Event): string
    requires e.Item?
  {
    if e.overdue && copy.progress != "100%" then "FAILURE" else e.response.status
  }

  function ReasonSaid(copy: Row, e: Event): string
    requires e.Item?
  {
    if e.overdue && copy.progress != "100%" then "上游任务超时（超过1小时）" else e.response.failReason
  }

  /** Unfinished with a reason, or finished with status FAILURE. */
  predicate SaysFailed(copy: Row, e: Event)
    requires e.Item?
  {
    if e.response.progress == "100%" then StatusSaid(copy, e) == "FAILURE" else ReasonSaid(copy, e) != ""
  }

  predicate SaysNothingNew(copy: Row, e: Event)
    requires e.Item?
  {
    && copy.code == 1 && copy.progress == e.response.progress && copy.status == StatusSaid(copy, e)
    && copy.failReason == ReasonSaid(copy, e) && copy.detail == e.response.detail
    && (copy.progress == "100%" || ReasonSaid(copy, e) == "")
  }

  /** The item is news and the stored status is the one the poller read. */
  predicate IsWritten(s: State, copy: Row, e: Event)
    requires e.Item?
  {
    !SaysNothingNew(copy, e) && !e.dbError && e.id in s.table && s.table[e.id].status == copy.status
  }

  function RowSaid(copy: Row, e: Event): Row
    requires e.Item?
  {
    Row(copy.user, copy.quota, 1, StatusSaid(copy, e), if SaysFailed(copy, e) then "100%" else e.response.progress,
        ReasonSaid(copy, e), e.response.detail)
  }

  /** An item is written if and only if it is news and the stored status is unchanged; it makes
      its poller owe the refund if and only if it is written, says that the task failed and the
      task cost something. */
  lemma ItemIsExact(s: State, e: Event)
    requires e.Item? && Enabled(s, e)
    ensures var s', copy := Step(s, e), s.PollerOf(e.poller).copies[e.id];
      && s'.table == (if IsWritten(s, copy, e) then s.table[e.id := RowSaid(copy, e)] else s.table)
      && s'.PollerOf(e.poller).copies[e.id] == (if SaysNothingNew(copy, e) then copy else RowSaid(copy, e))
      && var refund := IsWritten(s, copy, e) && SaysFailed(copy, e) && copy.quota != 0;
         s'.owed == (if refund then s.owed + [e.id] else s.owed)
         && s'.PollerOf(e.poller).due == (if refund then Some(e.id) else None)
    ensures Step(s, e).payments == s.payments
    ensures Step(s, e).PollerOf(e.poller).handled == s.PollerOf(e.poller).handled + {e.id}
  {
  }

  /** A due refund is paid if and only if the quota increase succeeds and the quota is not
      negative: that quota, to that user. Either way it is no longer due. */
  lemma RefundIsExact(s: State, p: PollerId, ok: bool)
    requires Enabled(s, Refund(p, ok))
    ensures var s', id := Step(s, Refund(p, ok)), s.PollerOf(p).due.value;
      var copy := s.PollerOf(p).copies[id];
      && s'.payments == (if ok && copy.quota >= 0 then s.payments + [Payment(id, copy.user, copy.quota)] else s.payments)
      && s'.PollerOf(p).due.None? && s'.table == s.table && s'.owed == s.owed
  {
  }

  /** The bulk update fails and finishes exactly the given tasks, without a refund. */
  lemma BulkFailIsExact(s: State, ids: set<TaskId>, id: TaskId)
    ensures Enabled(s, BulkFail(ids))
    ensures var s' := Step(s, BulkFail(ids));
      && (id in s'.table <==> id in s.table) && s'.owed == s.owed && s'.payments == s.payments && s'.pollers == s.pollers
      && (id in s.table ==>
            s'.table[id] == if id in ids then s.table[id].(status := "FAILURE", progress := "100%") else s.table[id])
  {
  }

  /** A snapshot holds the rows that are unfinished. */
  lemma SnapshotIsExact(s: State, p: PollerId, id: TaskId)
    requires Enabled(s, Snapshot(p))
    ensures var copies := Step(s, Snapshot(p)).PollerOf(p).copies;
      && (id in copies <==> id in s.table && s.table[id].progress != "100%")
      && (id in copies ==> copies[id] == s.table[id])
  {
  }

  /** Every refund decided has been paid or its poller is about to pay it. */
  ghost predicate Covered(s: State) {
    forall id :: id in s.owed ==>
      || (exists i :: 0 <= i < |s.payments| && s.payments[i].id == id)
      || (exists p :: p in s.pollers && s.pollers[p].due == Some(id))
  }

  ghost predicate QuotaIsNatural(s: State, events: seq<Event>) {
    && (forall id :: id in s.table ==> s.table[id].quota >= 0)
    && (forall p, id :: p in s.pollers && id in s.pollers[p].copies ==> s.pollers[p].copies[id].quota >= 0)
    && (forall i :: 0 <= i < |events| && events[i].NewTask? ==> events[i].row.quota >= 0)
  }

  predicate RefundsSucceed(events: seq<Event>) {
    forall i :: 0 <= i < |events| && events[i].Refund? ==> events[i].ok
  }

  lemma StepKeepsNatural(s: State, events: seq<Event>)
    requires events != [] && Enabled(s, events[0]) && QuotaIsNatural(s, events)
    ensures QuotaIsNatural(Step(s, events[0]), events[1..])
  {
    assert events[0].NewTask? ==> events[0].row.quota >= 0;
    assert forall i :: 0 <= i < |events[1..]| ==> events[1..][i] == events[i + 1];
  }

  lemma StepKeepsCovered(s: State, e: Event)
    requires Enabled(s, e) && Covered(s) && QuotaIsNatural(s, [e]) && (e.Refund? ==> e.ok)
    ensures Covered(Step(s, e))
  {
    var s' := Step(s, e);
    forall id | id in s'.owed
      ensures || (exists i :: 0 <= i < |s'.payments| && s'.payments[i].id == id)
              || (exists p :: p in s'.pollers && s'.pollers[p].due == Some(id))
    {
      if id in s.owed {
        if i :| 0 <= i < |s.payments| && s.payments[i].id == id {
          assert s'.payments[i].id == id;
        } else {
          var p :| p in s.pollers && s.pollers[p].due == Some(id);
          if e.Refund? && e.poller == p {
            assert s'.payments[|s.payments|].id == id;
          } else {
            assert s'.pollers[p].due == Some(id);
          }
        }
      } else {
        ItemIsExact(s, e);
        assert s'.pollers[e.poller].due == Some(id);
      }
    }
  }

  /** With a database that performs the quota increases, no refund that was decided is lost. */
  lemma {:induction false} EveryRefundIsPaid(s: State, events: seq<Event>)
    requires Covered(s) && QuotaIsNatural(s, events) && RefundsSucceed(events) && Schedulable(s, events)
    ensures Covered(Run(s, events))
    decreases |events|
  {
    if events != [] {
      StepKeepsCovered(s, events[0]);
      StepKeepsNatural(s, events);
      assert forall i :: 0 <= i < |events[1..]| ==> events[1..][i] == events[i + 1];
      EveryRefundIsPaid(Step(s, events[0]), events[1..]);
    }
  }

  // ---------- refunds are decided at most once ----------

  /** The upstream reports failures with status FAILURE, and the poller's copy is not already failed. */
  predicate Guarded(s: State, e: Event)
    requires Enabled(s, e)
  {
    e.Item? ==>
      && (Failing(Effective(s, e)) ==> Effective(s, e).status == FAILURE)
      && s.PollerOf(e.poller).copies[e.id].status != FAILURE
  }

  predicate GuardedRun(s: State, events: seq<Event>)
    requires Schedulable(s, events)
    decreases |events|
  {
    events == [] || (Guarded(s, events[0]) && GuardedRun(Step(s, events[0]), events[1..]))
  }

  /** Tasks with a decided refund are stored as failed. */
  ghost predicate OwedFailed(s: State) {
    forall i :: 0 <= i < |s.owed| ==> s.owed[i] in s.table && s.table[s.owed[i]].status == FAILURE
  }

  predicate Distinct(ids: seq<TaskId>) {
    forall i, j :: 0 <= i < j < |ids| ==> ids[i] != ids[j]
  }

  ghost predicate OwedInv(s: State) {
    OwedFailed(s) && Distinct(s.owed)
  }

  lemma StepKeepsOwed(s: State, e: Event)
    requires OwedInv(s) && Enabled(s, e) && Guarded(s, e)
    ensures OwedInv(Step(s, e))
  {
  }

  lemma {:induction false} RunKeepsOwed(s: State, events: seq<Event>)
    requires OwedInv(s) && Schedulable(s, events) && GuardedRun(s, events)
    ensures OwedInv(Run(s, events))
    decreases |events|
  {
    if events != [] {
      StepKeepsOwed(s, events[0]);
      RunKeepsOwed(Step(s, events[0]), events[1..]);
    }
  }

  /** Each task is refunded at most once in every interleaving in which no poller handles an
      item for a task its copy already shows as failed. */
  lemma RefundedAtMostOnce(s: State, events: seq<Event>)
    requires Initial(s) && Schedulable(s, events) && GuardedRun(s, events)
    ensures Distinct(Run(s, events).owed)
  {
    RunKeepsOwed(s, events);
  }

  /** A failed task stays failed for guarded pollers. */
  lemma {:induction false} FailureIsAbsorbing(s: State, events: seq<Event>, id: TaskId)
    requires Schedulable(s, events) && GuardedRun(s, events)
    requires id in s.table && s.table[id].status == FAILURE && s.table[id].progress == DONE
    ensures id in Run(s, events).table && Run(s, events).table[id].status == FAILURE && Run(s, events).table[id].progress == DONE
    decreases |events|
  {
    if events != [] {
      FailureIsAbsorbing(Step(s, events[0]), events[1..], id);
    }
  }

  /** A failing item that is written for a task whose refund is already decided, by a poller
      whose copy already shows the task as failed. */
  predicate SecondRefund(s: State, e: Event)
    requires Enabled(s, e)
  {
    e.Item? && e.id in s.owed &&
    var copy := s.PollerOf(e.poller).copies[e.id];
    copy.status == FAILURE && !e.dbError && copy.quota != 0
    && Failing(Effective(s, e)) && NeedsUpdate(copy, Effective(s, e))
  }

  /** The only way to decide a second refund. */
  lemma SecondRefundIff(s: State, e: Event)
    requires OwedFailed(s) && e.Item? && Enabled(s, e) && e.id in s.owed
    ensures Refunds(s, e) <==> SecondRefund(s, e)
  {
  }

  // ---------- exactly when a run refunds twice ----------

  /** A failing item that is written for a task with quota whose refund is already decided. */
  predicate RepeatRefund(s: State, e: Event)
    requires Enabled(s, e)
  {
    e.Item? && e.id in s.owed &&
    var copy := s.PollerOf(e.poller).copies[e.id];
    !e.dbError && e.id in s.table && s.table[e.id].status == copy.status && copy.quota != 0
    && Failing(Effective(s, e)) && NeedsUpdate(copy, Effective(s, e))
  }

  predicate NoRepeatRefund(s: State, events: seq<Event>)
    requires Schedulable(s, events)
    decreases |events|
  {
    events == [] || (!RepeatRefund(s, events[0]) && NoRepeatRefund(Step(s, events[0]), events[1..]))
  }

  lemma OwedAfter(s: State, e: Event)
    requires Enabled(s, e)
    ensures Step(s, e).owed == if e.Item? && Refunds(s, e) then s.owed + [e.id] else s.owed
  {
  }

  lemma {:induction false} OwedGrows(s: State, events: seq<Event>)
    requires Schedulable(s, events)
    ensures s.owed <= Run(s, events).owed
    decreases |events|
  {
    if events != [] {
      OwedAfter(s, events[0]);
      OwedGrows(Step(s, events[0]), events[1..]);
    }
  }

  lemma DistinctAppend(ids: seq<TaskId>, id: TaskId)
    requires Distinct(ids)
    ensures Distinct(ids + [id]) <==> id !in ids
  {
    if id in ids {
      var i :| 0 <= i < |ids| && ids[i] == id;
      assert (ids + [id])[i] == (ids + [id])[|ids|];
    }
  }

  lemma StepRepeatsIff(s: State, e: Event)
    requires Distinct(s.owed) && Enabled(s, e)
    ensures Distinct(Step(s, e).owed) <==> !RepeatRefund(s, e)
  {
    OwedAfter(s, e);
    if e.Item? {
      DistinctAppend(s.owed, e.id);
    }
  }

  /** Over every interleaving, whatever the upstream answers, each task is refunded at most once if
      and only if no failing item is written for a task that has been refunded. */
  lemma {:induction false} RefundedOnceIff(s: State, events: seq<Event>)
    requires Distinct(s.owed) && Schedulable(s, events)
    ensures Distinct(Run(s, events).owed) <==> NoRepeatRefund(s, events)
    decreases |events|
  {
    if events != [] {
      var s' := Step(s, events[0]);
      StepRepeatsIff(s, events[0]);
      if Distinct(s'.owed) {
        RefundedOnceIff(s', events[1..]);
      } else {
        OwedGrows(s', events[1..]);
      }
    }
  }

  /** Among the items that are written, failing ones say FAILURE and none takes a failed task out of failure. */
  predicate Honest(s: State, e: Event)
    requires Enabled(s, e)
  {
    e.Item? ==>
      var copy := s.PollerOf(e.poller).copies[e.id];
      Wins(s, e.id, copy.status, e.dbError) && (Failing(Effective(s, e)) || copy.status == FAILURE) ==>
        Effective(s, e).status == FAILURE
  }

  predicate HonestRun(s: State, events: seq<Event>)
    requires Schedulable(s, events)
    decreases |events|
  {
    events == [] || (Honest(s, events[0]) && HonestRun(Step(s, events[0]), events[1..]))
  }

  predicate NoSecondRefund(s: State, events: seq<Event>)
    requires Schedulable(s, events)
    decreases |events|
  {
    events == [] || (!SecondRefund(s, events[0]) && NoSecondRefund(Step(s, events[0]), events[1..]))
  }

  lemma StepKeepsOwedFailed(s: State, e: Event)
    requires OwedFailed(s) && Enabled(s, e) && Honest(s, e)
    ensures OwedFailed(Step(s, e))
  {
  }

  /** With an honest upstream that is the same as: no failing item is written for a refunded task
      by a poller whose copy already shows it as failed. */
  lemma {:induction false} HonestRepeatsIff(s: State, events: seq<Event>)
    requires OwedFailed(s) && Schedulable(s, events) && HonestRun(s, events)
    ensures NoRepeatRefund(s, events) <==> NoSecondRefund(s, events)
    decreases |events|
  {
    if events != [] {
      StepKeepsOwedFailed(s, events[0]);
      HonestRepeatsIff(Step(s, events[0]), events[1..]);
    }
  }

  // ---------- when the guard holds ----------

  /** An upstream that reports status FAILURE exactly for failing items, and answers each task
      of a batch at most once. */
  predicate Courteous(s: State, e: Event)
    requires Enabled(s, e)
  {
    e.Item? ==>
      && (Failing(Effective(s, e)) <==> Effective(s, e).status == FAILURE)
      && e.id !in s.PollerOf(e.poller).handled
  }

  predicate CourteousRun(s: State, events: seq<Event>)
    requires Schedulable(s, events)
    decreases |events|
  {
    events == [] || (Courteous(s, events[0]) && CourteousRun(Step(s, events[0]), events[1..]))
  }

  predicate Settled(row: Row) {
    row.status == FAILURE ==> row.progress == DONE
  }

  /** No row is failed and unfinished, neither in the table nor when it is created. */
  ghost predicate SettledRows(s: State, events: seq<Event>) {
    && (forall id :: id in s.table ==> Settled(s.table[id]))
    && (forall i :: 0 <= i < |events| && events[i].NewTask? ==> Settled(events[i].row))
  }

  /** No snapshot holds a failed copy that has not been handled. */
  ghost predicate FreshInv(s: State) {
    forall p, id :: p in s.pollers && id in s.pollers[p].copies && id !in s.pollers[p].handled ==>
      s.pollers[p].copies[id].status != FAILURE
  }

  lemma StepKeepsFresh(s: State, events: seq<Event>)
    requires events != [] && SettledRows(s, events) && FreshInv(s) && Enabled(s, events[0]) && Courteous(s, events[0])
    ensures SettledRows(Step(s, events[0]), events[1..]) && FreshInv(Step(s, events[0])) && Guarded(s, events[0])
  {
    assert events[0].NewTask? ==> Settled(events[0].row);
    assert forall i :: 0 <= i < |events[1..]| ==> events[1..][i] == events[i + 1];
  }

  lemma {:induction false} CourteousIsGuarded(s: State, events: seq<Event>)
    requires SettledRows(s, events) && FreshInv(s) && Schedulable(s, events) && CourteousRun(s, events)
    ensures GuardedRun(s, events)
    decreases |events|
  {
    if events != [] {
      StepKeepsFresh(s, events);
      CourteousIsGuarded(Step(s, events[0]), events[1..]);
    }
  }

  // ---------- payments ----------

  /** User and quota of a task never change, in the table or in a copy. */
  ghost predicate SameAccount(s: State) {
    forall p, id :: p in s.pollers && id in s.pollers[p].copies ==>
      id in s.table && s.pollers[p].copies[id].user == s.table[id].user && s.pollers[p].copies[id].quota == s.table[id].quota
  }

  ghost predicate PayInv(s: State) {
    && (forall p :: p in s.pollers && s.pollers[p].due.Some? ==>
          s.pollers[p].due.value in s.owed && s.pollers[p].due.value in s.pollers[p].copies)
    && (forall p, q :: p in s.pollers && q in s.pollers && p != q && s.pollers[p].due.Some? ==> s.pollers[p].due != s.pollers[q].due)
    && (forall i :: 0 <= i < |s.payments| ==> s.payments[i].id in s.owed)
    && (forall i, p :: 0 <= i < |s.payments| && p in s.pollers ==> s.pollers[p].due != Some(s.payments[i].id))
    && (forall i, j :: 0 <= i < j < |s.payments| ==> s.payments[i].id != s.payments[j].id)
  }

  ghost predicate AmountInv(s: State) {
    forall i :: 0 <= i < |s.payments| ==>
      && s.payments[i].id in s.table
      && s.payments[i].user == s.table[s.payments[i].id].user && s.payments[i].quota == s.table[s.payments[i].id].quota
  }

  lemma StepKeepsAccounts(s: State, e: Event)
    requires SameAccount(s) && AmountInv(s) && Enabled(s, e)
    ensures SameAccount(Step(s, e)) && AmountInv(Step(s, e))
  {
  }

  lemma ItemKeepsPay(s: State, e: Event)
    requires PayInv(s) && OwedInv(s) && e.Item? && Enabled(s, e) && Guarded(s, e)
    ensures PayInv(Step(s, e))
  {
    StepKeepsOwed(s, e);
    if Refunds(s, e) {
      assert e.id !in s.owed by {
        if e.id in s.owed { SecondRefundIff(s, e); }
      }
      RefundingItemKeepsPay(s, e);
    }
  }

  lemma RefundingItemKeepsPay(s: State, e: Event)
    requires PayInv(s) && e.Item? && Enabled(s, e) && Refunds(s, e) && e.id !in s.owed
    ensures PayInv(Step(s, e))
  {
    var s' := Step(s, e);
    assert s'.owed == s.owed + [e.id] && s'.payments == s.payments;
    assert forall p :: p in s'.pollers && p != e.poller ==> p in s.pollers && s'.pollers[p] == s.pollers[p];
  }

  lemma RefundKeepsPay(s: State, e: Event)
    requires PayInv(s) && e.Refund? && Enabled(s, e)
    ensures PayInv(Step(s, e))
  {
    var s' := Step(s, e);
    assert s'.owed == s.owed;
    assert forall p :: p in s'.pollers && p != e.poller ==> p in s.pollers && s'.pollers[p] == s.pollers[p];
  }

  lemma StepKeepsPay(s: State, e: Event)
    requires PayInv(s) && OwedInv(s) && Enabled(s, e) && Guarded(s, e)
    ensures PayInv(Step(s, e))
  {
    if e.Item? {
      ItemKeepsPay(s, e);
    } else if e.Refund? {
      RefundKeepsPay(s, e);
    }
  }

  lemma {:induction false} RunKeepsPay(s: State, events: seq<Event>)
    requires PayInv(s) && OwedInv(s) && SameAccount(s) && AmountInv(s)
    requires Schedulable(s, events) && GuardedRun(s, events)
    ensures PayInv(Run(s, events)) && AmountInv(Run(s, events))
    decreases |events|
  {
    if events != [] {
      StepKeepsOwed(s, events[0]);
      StepKeepsAccounts(s, events[0]);
      StepKeepsPay(s, events[0]);
      RunKeepsPay(Step(s, events[0]), events[1..]);
    }
  }

  /** With a courteous upstream and no row that is failed and unfinished, every user gets each
      failed task's quota back at most once, and exactly that quota, however many pollers run. */
  lemma PaidAtMostOnce(s: State, events: seq<Event>)
    requires Initial(s) && SettledRows(s, events) && Schedulable(s, events) && CourteousRun(s, events)
    ensures var s' := Run(s, events);
      && (forall i, j :: 0 <= i < j < |s'.payments| ==> s'.payments[i].id != s'.payments[j].id)
      && (forall i :: 0 <= i < |s'.payments| ==>
            && s'.payments[i].id in s'.table
            && s'.payments[i].user == s'.table[s'.payments[i].id].user
            && s'.payments[i].quota == s'.table[s'.payments[i].id].quota)
  {
    CourteousIsGuarded(s, events);
    RunKeepsPay(s, events);
  }

  // ---------- how the guard fails ----------

  const FAILED := Response(FAILURE, DONE, "x", "")

  function Answer(p: PollerId, r: Response): Event { Item(p, 0, r, false, false) }

  predicate OneTask(s: State, row: Row) {
    Initial(s) && s.table == map[0 := row]
  }

  /** Two items for one task in one batch: the second finds the copy failed and refunds again. */
  lemma RepeatedItemRefundsTwice(row: Row) returns (s: State, events: seq<Event>)
    requires row.quota > 0 && row.status != FAILURE && row.progress != DONE
    ensures OneTask(s, row) && Schedulable(s, events) && Run(s, events).owed == [0, 0]
  {
    s := State(map[0 := row], map[], [], []);
    var second := Answer(0, FAILED.(failReason := "y"));
    var s1 := Step(s, Snapshot(0));
    assert s1.PollerOf(0).copies[0] == row;
    var s2 := Step(s1, Answer(0, FAILED));
    assert s2.owed == [0];
    var s3 := Step(s2, Refund(0, true));
    var s4 := Step(s3, second);
    assert s4.owed == [0, 0];
    ChainOfFour(s, Snapshot(0), Answer(0, FAILED), Refund(0, true), second);
    events := [Snapshot(0), Answer(0, FAILED), Refund(0, true), second];
  }

  /** The answers two pollers get after both have taken a snapshot. */
  function TwoPollers(p: PollerId, q: PollerId): seq<Event> {
    [Snapshot(p), Snapshot(q), Answer(p, FAILED), Answer(q, FAILED)]
  }

  predicate FailedUnfinished(row: Row) {
    row.quota > 0 && row.status == FAILURE && row.progress != DONE
  }

  /** Each of two pollers that hold a snapshot of such a row refunds it. */
  lemma BothRefund(s: State, row: Row, p: PollerId, q: PollerId)
    requires FailedUnfinished(row) && s.table == map[0 := row] && s.owed == [] && p != q
    requires s.PollerOf(p).due.None? && s.PollerOf(q).due.None?
    ensures Schedulable(s, TwoPollers(p, q)) && Run(s, TwoPollers(p, q)).owed == [0, 0]
    ensures CourteousRun(s, TwoPollers(p, q)) && HonestRun(s, TwoPollers(p, q))
  {
    var s2 := Step(Step(s, Snapshot(p)), Snapshot(q));
    assert s2.PollerOf(p) == s2.PollerOf(q) == Poller(map[0 := row], {}, None);
    var s3 := Step(s2, Answer(p, FAILED));
    assert s3.owed == [0] && s3.PollerOf(q).copies[0] == row && s3.table[0].status == FAILURE;
    ChainOfFour(s, Snapshot(p), Snapshot(q), Answer(p, FAILED), Answer(q, FAILED));
  }

  /** A row stored as failed and unfinished, as the submit handler creates it when the answer to
      the submission already reports a failure, is refunded once by each poller that takes a
      snapshot of it. The upstream is courteous throughout. */
  lemma FailedUnfinishedRowRefundsTwice(row: Row) returns (s: State, events: seq<Event>)
    requires FailedUnfinished(row)
    ensures OneTask(s, row) && Schedulable(s, events) && CourteousRun(s, events) && Run(s, events).owed == [0, 0]
  {
    s := State(map[0 := row], map[], [], []);
    BothRefund(s, row, 0, 1);
    events := TwoPollers(0, 1);
  }

  const HALF := Response(FAILURE, "50%", "", "")

  /** An answer with status FAILURE, an unfinished progress and no reason is no failing item, and
      leaves such a row behind. */
  lemma HalfAnswerLeavesUnfinished(s: State, row: Row)
    requires OneTask(s, row) && row.quota > 0 && row.status != FAILURE && row.progress != DONE
    ensures Honest(s, Snapshot(0)) && Enabled(Step(s, Snapshot(0)), Answer(0, HALF)) && Honest(Step(s, Snapshot(0)), Answer(0, HALF))
    ensures var s' := Step(Step(s, Snapshot(0)), Answer(0, HALF));
      && s'.owed == [] && s'.PollerOf(1).due.None? && s'.PollerOf(2).due.None?
      && 0 in s'.table && FailedUnfinished(s'.table[0]) && s'.table == map[0 := s'.table[0]]
  {
    var s1 := Step(s, Snapshot(0));
    assert s1.PollerOf(0).copies == map[0 := row];
    assert NeedsUpdate(row, HALF) && !Failing(HALF);
  }

  /** So such an answer leads to two refunds, although every failing item says FAILURE and no item
      takes the task out of failure. */
  lemma UnfinishedFailureAnswerRefundsTwice(row: Row) returns (s: State, events: seq<Event>)
    requires row.quota > 0 && row.status != FAILURE && row.progress != DONE
    ensures OneTask(s, row) && Schedulable(s, events) && HonestRun(s, events) && Run(s, events).owed == [0, 0]
  {
    s := State(map[0 := row], map[], [], []);
    HalfAnswerLeavesUnfinished(s, row);
    var s1 := Step(s, Snapshot(0));
    var s2 := Step(s1, Answer(0, HALF));
    BothRefund(s2, s2.table[0], 1, 2);
    RunCons(s1, Answer(0, HALF), TwoPollers(1, 2));
    RunCons(s, Snapshot(0), [Answer(0, HALF)] + TwoPollers(1, 2));
    events := [Snapshot(0)] + ([Answer(0, HALF)] + TwoPollers(1, 2));
  }

  const REVIVED := Response("IN_PROGRESS", "50%", "", "")

  /** Failing items say FAILURE. */
  predicate Candid(s: State, e: Event)
    requires Enabled(s, e)
  {
    e.Item? && Failing(Effective(s, e)) ==> Effective(s, e).status == FAILURE
  }

  predicate CandidRun(s: State, events: seq<Event>)
    requires Schedulable(s, events)
    decreases |events|
  {
    events == [] || (Candid(s, events[0]) && CandidRun(Step(s, events[0]), events[1..]))
  }

  function Revival(): (Event, Event, Event, Event) {
    (Snapshot(0), Answer(0, FAILED), Refund(0, true), Answer(0, REVIVED))
  }

  /** A task fails, is refunded, and is reported alive again by a later item of the same batch. */
  lemma ReviveOnce(s: State, row: Row)
    requires OneTask(s, row) && row.quota > 0 && row.status != FAILURE && row.progress != DONE
    ensures var (a, b, c, d) := Revival(); FourEnabled(s, a, b, c, d) && FourCandid(s, a, b, c, d)
    ensures var (a, b, c, d) := Revival(); var s4 := AfterFour(s, a, b, c, d);
      && s4.owed == [0] && s4.PollerOf(1).due.None? && 0 in s4.table
      && s4.table[0].status == "IN_PROGRESS" && s4.table[0].progress == "50%" && s4.table[0].quota == row.quota
  {
    var s1 := Step(s, Snapshot(0));
    assert s1.PollerOf(0).copies == map[0 := row];
    var s2 := Step(s1, Answer(0, FAILED));
    assert s2.owed == [0] && s2.PollerOf(0).due == Some(0) && s2.table[0].status == FAILURE;
  }

  /** Failing items say FAILURE and none is a second refund, in each of four steps. */
  predicate FourCandid(s: State, a: Event, b: Event, c: Event, d: Event)
    requires FourEnabled(s, a, b, c, d)
  {
    && Candid(s, a) && !SecondRefund(s, a)
    && Candid(Step(s, a), b) && !SecondRefund(Step(s, a), b)
    && Candid(Step(Step(s, a), b), c) && !SecondRefund(Step(Step(s, a), b), c)
    && Candid(Step(Step(Step(s, a), b), c), d) && !SecondRefund(Step(Step(Step(s, a), b), c), d)
  }

  lemma FourThenTail(s: State, a: Event, b: Event, c: Event, d: Event, tail: seq<Event>)
    requires FourEnabled(s, a, b, c, d) && FourCandid(s, a, b, c, d) && Schedulable(AfterFour(s, a, b, c, d), tail)
    requires CandidRun(AfterFour(s, a, b, c, d), tail) && NoSecondRefund(AfterFour(s, a, b, c, d), tail)
    ensures Schedulable(s, [a] + ([b] + ([c] + ([d] + tail))))
    ensures Run(s, [a] + ([b] + ([c] + ([d] + tail)))) == Run(AfterFour(s, a, b, c, d), tail)
    ensures CandidRun(s, [a] + ([b] + ([c] + ([d] + tail)))) && NoSecondRefund(s, [a] + ([b] + ([c] + ([d] + tail))))
  {
    RunCons(Step(Step(Step(s, a), b), c), d, tail);
    RunCons(Step(Step(s, a), b), c, [d] + tail);
    RunCons(Step(s, a), b, [c] + ([d] + tail));
    RunCons(s, a, [b] + ([c] + ([d] + tail)));
  }

  lemma SecondFailure(s: State, p: PollerId)
    requires s.owed == [0] && s.PollerOf(p).due.None? && 0 in s.table
    requires s.table[0].status == "IN_PROGRESS" && s.table[0].progress == "50%" && s.table[0].quota > 0
    ensures Schedulable(s, [Snapshot(p), Answer(p, FAILED)]) && Run(s, [Snapshot(p), Answer(p, FAILED)]).owed == [0, 0]
    ensures CandidRun(s, [Snapshot(p), Answer(p, FAILED)]) && NoSecondRefund(s, [Snapshot(p), Answer(p, FAILED)])
  {
    var s1 := Step(s, Snapshot(p));
    assert s1.PollerOf(p).copies[0] == s.table[0];
    assert Step(s1, Answer(p, FAILED)).owed == [0, 0];
    RunCons(s1, Answer(p, FAILED), []);
    RunCons(s, Snapshot(p), [Answer(p, FAILED)] + []);
    assert [Snapshot(p)] + ([Answer(p, FAILED)] + []) == [Snapshot(p), Answer(p, FAILED)];
  }

  /** Nor is it enough that failing items say FAILURE and that no poller's copy is already failed
      when it refunds: a task that fails, is reported alive again and fails again is refunded twice. */
  lemma RevivedTaskRefundsTwice(row: Row) returns (s: State, events: seq<Event>)
    requires row.quota > 0 && row.status != FAILURE && row.progress != DONE
    ensures OneTask(s, row) && Schedulable(s, events) && CandidRun(s, events) && NoSecondRefund(s, events)
      && Run(s, events).owed == [0, 0]
  {
    s := State(map[0 := row], map[], [], []);
    ReviveOnce(s, row);
    var (a, b, c, d) := Revival();
    SecondFailure(AfterFour(s, a, b, c, d), 1);
    FourThenTail(s, a, b, c, d, [Snapshot(1), Answer(1, FAILED)]);
    events := [a] + ([b] + ([c] + ([d] + [Snapshot(1), Answer(1, FAILED)])));
  }

  lemma RunCons(s: State, e: Event, rest: seq<Event>)
    requires Enabled(s, e) && Schedulable(Step(s, e), rest)
    ensures Schedulable(s, [e] + rest) && Run(s, [e] + rest) == Run(Step(s, e), rest)
    ensures CourteousRun(s, [e] + rest) <==> Courteous(s, e) && CourteousRun(Step(s, e), rest)
    ensures HonestRun(s, [e] + rest) <==> Honest(s, e) && HonestRun(Step(s, e), rest)
    ensures CandidRun(s, [e] + rest) <==> Candid(s, e) && CandidRun(Step(s, e), rest)
    ensures NoSecondRefund(s, [e] + rest) <==> !SecondRefund(s, e) && NoSecondRefund(Step(s, e), rest)
  {
    assert ([e] + rest)[1..] == rest;
  }

  predicate FourEnabled(s: State, a: Event, b: Event, c: Event, d: Event) {
    && Enabled(s, a) && Enabled(Step(s, a), b) && Enabled(Step(Step(s, a), b), c)
    && Enabled(Step(Step(Step(s, a), b), c), d)
  }

  function AfterFour(s: State, a: Event, b: Event, c: Event, d: Event): State
    requires FourEnabled(s, a, b, c, d)
  {
    Step(Step(Step(Step(s, a), b), c), d)
  }

  lemma ChainOfFour(s: State, a: Event, b: Event, c: Event, d: Event)
    requires FourEnabled(s, a, b, c, d)
    ensures Schedulable(s, [a, b, c, d])
    ensures Run(s, [a, b, c, d]) == AfterFour(s, a, b, c, d)
    ensures CourteousRun(s, [a, b, c, d]) <==>
      Courteous(s, a) && Courteous(Step(s, a), b) && Courteous(Step(Step(s, a), b), c)
      && Courteous(Step(Step(Step(s, a), b), c), d)
    ensures HonestRun(s, [a, b, c, d]) <==>
      Honest(s, a) && Honest(Step(s, a), b) && Honest(Step(Step(s, a), b), c) && Honest(Step(Step(Step(s, a), b), c), d)
  {
    RunCons(Step(Step(Step(s, a), b), c), d, []);
    RunCons(Step(Step(s, a), b), c, [d] + []);
    RunCons(Step(s, a), b, [c] + ([d] + []));
    RunCons(s, a, [b] + ([c] + ([d] + [])));
    assert [a] + ([b] + ([c] + ([d] + []))) == [a, b, c, d];
  }
}
