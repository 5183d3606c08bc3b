/**
Settlement of one video task over its polls: the pre-charged quota is
re-priced by the tokens of a successful task and given back for a failed one.
*/
module VideoLedger {
  import opened Prelude
  import opened QuotaMath

  const SUBMITTED := "SUBMITTED"
  const QUEUED := "QUEUED"
  const IN_PROGRESS := "IN_PROGRESS"
  const SUCCESS := "SUCCESS"
  const FAILURE := "FAILURE"

  /** `status` and `quota` are the stored row; `charge` is what the user has paid for the task
      so far and `refunds` how often the failure refund was made. */
  datatype Ledger = Ledger(status: string, quota: int, charge: int, refunds: nat)

  /** The upstream's answer. The ratios are there when the model has a configured ratio and the
      user's group is known. */
  datatype Reply = Reply(status: string, tokens: int, modelRatio: Option<real>, groupRatio: Option<real>)

  /** Which of the calls a poll may make succeed: the row update and the quota changes. */
  datatype Calls = Calls(update: bool, decrease: bool, increase: bool)

  datatype Poll = Poll(reply: Reply, calls: Calls)

  predicate Known(status: string) {
    status == SUBMITTED || status == QUEUED || status == IN_PROGRESS || status == SUCCESS || status == FAILURE
  }

  /** An empty status counts as a failure. */
  function Outcome(r: Reply): string {
    if r.status == "" then FAILURE else r.status
  }

  predicate Reprices(r: Reply) {
    Outcome(r) == SUCCESS && r.tokens > 0 && r.modelRatio.Some? && r.modelRatio.value > 0.0 && r.groupRatio.Some?
  }

  function ActualQuota(tokens: int, modelRatio: real, groupRatio: real): int {
    QuotaFromFloat(Fin(tokens as real * modelRatio * groupRatio))
  }

  /** The change of the user's charge that re-pricing makes. */
  function Adjustment(l: Ledger, p: Poll): int {
    if !Reprices(p.reply) then 0
    else
      var delta := ActualQuota(p.reply.tokens, p.reply.modelRatio.value, p.reply.groupRatio.value) - l.quota;
      if (delta > 0 && p.calls.decrease) || (delta < 0 && p.calls.increase) then delta else 0
  }

  predicate ShouldRefund(l: Ledger, p: Poll) {
    Outcome(p.reply) == FAILURE && l.quota != 0 && l.status != FAILURE && p.calls.update
  }

  /** IncreaseUserQuota refuses negative amounts. */
  predicate RefundGoesThrough(l: Ledger, p: Poll) {
    ShouldRefund(l, p) && p.calls.increase && l.quota >= 0
  }

  function Settle(l: Ledger, p: Poll): Ledger {
    if !Known(Outcome(p.reply)) then l
    else
      var a := Adjustment(l, p);
      Ledger(if p.calls.update then Outcome(p.reply) else l.status,
             if p.calls.update then l.quota + a else l.quota,
             l.charge + a - (if RefundGoesThrough(l, p) then l.quota else 0),
             l.refunds + (if RefundGoesThrough(l, p) then 1 else 0))
  }

  function Run(l: Ledger, polls: seq<Poll>): Ledger
    decreases |polls|
  {
    if polls == [] then l else Run(Settle(l, polls[0]), polls[1..])
  }

  /** The task object a poll works on: loaded from the row, changed, written back. */
  class VideoTask {
    var ledger: Ledger
    var status: string
    var quota: int

    constructor (ledger: Ledger)
      ensures this.ledger == ledger
    {
      this.ledger := ledger;
      this.status, this.quota := ledger.status, ledger.quota;
    }

    method UpdateSingle(p: Poll) returns (err: bool)
      modifies this
      ensures ledger == Settle(old(ledger), p)
      ensures err == !Known(Outcome(p.reply))
    {
      status, quota := ledger.status, ledger.quota;
      var outcome := p.reply.status;
      if outcome == "" {
        outcome := FAILURE;
      }
      var shouldRefund := false;
      var charged := quota;
      var preStatus := status;
      status := outcome;
      if outcome == SUCCESS {
        if p.reply.tokens > 0 && p.reply.modelRatio.Some? && p.reply.modelRatio.value > 0.0 && p.reply.groupRatio.Some? {
          var actual := ActualQuota(p.reply.tokens, p.reply.modelRatio.value, p.reply.groupRatio.value);
          var delta := actual - quota;
          if delta > 0 {
            if p.calls.decrease {
              ledger := ledger.(charge := ledger.charge + delta);
              quota := actual;
            }
          } else if delta < 0 {
            if p.calls.increase {
              ledger := ledger.(charge := ledger.charge - -delta);
              quota := actual;
            }
          }
        }
      } else if outcome == FAILURE {
        if charged != 0 && preStatus != FAILURE {
          shouldRefund := true;
        }
      } else if outcome != SUBMITTED && outcome != QUEUED && outcome != IN_PROGRESS {
        return true;
      }
      if p.calls.update {
        ledger := ledger.(status := status, quota := quota);
      } else {
        shouldRefund := false;
      }
      if shouldRefund && p.calls.increase && charged >= 0 {
        ledger := ledger.(charge := ledger.charge - charged, refunds := ledger.refunds + 1);
      }
      return false;
    }
  }

  // ---------- what one poll does ----------

  /** A missing status or FAILURE. */
  predicate SaysFailed(r: Reply) { r.status == "" || r.status == "FAILURE" }

  /** The refund is made if and only if the poll reports a failure, the stored row was not failed,
      the row is written, the quota is positive and the increase succeeds; it is that quota. */
  lemma RefundIff(l: Ledger, p: Poll)
    ensures var l' := Settle(l, p);
      l'.refunds == l.refunds +
        (if SaysFailed(p.reply) && l.status != "FAILURE" && l.quota > 0 && p.calls.update && p.calls.increase then 1 else 0)
    ensures SaysFailed(p.reply) ==> Settle(l, p).charge == l.charge - l.quota * (Settle(l, p).refunds - l.refunds)
    ensures SaysFailed(p.reply) && p.calls.update ==> Settle(l, p).status == "FAILURE" && Settle(l, p).quota == l.quota
  {
  }

  /** A status that is none of the five changes nothing; one that is neither a success nor a
      failure moves no money. */
  lemma OtherStatuses(l: Ledger, p: Poll)
    requires !SaysFailed(p.reply) && p.reply.status != "SUCCESS"
    ensures var known := p.reply.status in ["SUBMITTED", "QUEUED", "IN_PROGRESS"];
      Settle(l, p) == if known && p.calls.update then l.(status := p.reply.status) else l
  {
  }

  predicate IsIntegerPart(q: int, x: real) {
    if x >= 0.0 then q as real <= x < q as real + 1.0 else q as real - 1.0 < x <= q as real
  }

  /** A success with tokens and configured ratios re-prices the task to the whole part of tokens
      times ratios, up to the 32-bit limits. */
  lemma SuccessReprices(l: Ledger, p: Poll)
    requires p.reply.status == "SUCCESS" && p.reply.tokens > 0
    requires p.reply.modelRatio.Some? && p.reply.modelRatio.value > 0.0 && p.reply.groupRatio.Some?
    requires p.calls == Calls(true, true, true)
    ensures var price, l' := p.reply.tokens as real * p.reply.modelRatio.value * p.reply.groupRatio.value, Settle(l, p);
      && l'.status == "SUCCESS" && l'.charge - l.charge == l'.quota - l.quota && l'.refunds == l.refunds
      && (-2147483648.0 < price < 2147483647.0 ==> IsIntegerPart(l'.quota, price))
      && (price >= 2147483647.0 ==> l'.quota == 2147483647) && (price <= -2147483648.0 ==> l'.quota == -2147483648)
  {
    SaturationIsSafe(Fin(p.reply.tokens as real * p.reply.modelRatio.value * p.reply.groupRatio.value));
    RepricingIsExact(l, p);
  }

  /** A re-pricing whose quota change fails leaves quota and charge as they were. */
  lemma FailedChangeKeepsQuota(l: Ledger, p: Poll, actual: int)
    requires p.reply.status == "SUCCESS" && Reprices(p.reply)
    requires actual == ActualQuota(p.reply.tokens, p.reply.modelRatio.value, p.reply.groupRatio.value)
    requires if actual > l.quota then !p.calls.decrease else !p.calls.increase
    ensures Settle(l, p) == if p.calls.update then l.(status := "SUCCESS") else l
  {
  }

  /** A success without tokens or without a ratio keeps the quota. */
  lemma SuccessKeepsQuota(l: Ledger, p: Poll)
    requires p.reply.status == "SUCCESS"
    requires p.reply.tokens <= 0 || p.reply.modelRatio.None? || p.reply.modelRatio.value <= 0.0 || p.reply.groupRatio.None?
    ensures Settle(l, p) == if p.calls.update then l.(status := "SUCCESS") else l
  {
  }

  // ---------- the charge is always accounted for ----------

  /** Before a failure the user has paid exactly the recorded quota; after one, nothing if the
      refund went through and the recorded quota otherwise. */
  predicate Balanced(l: Ledger) {
    && l.refunds <= 1
    && (l.status != FAILURE ==> l.charge == l.quota && l.refunds == 0)
    && (l.status == FAILURE ==> l.charge == if l.refunds == 1 then 0 else l.quota)
  }

  /** The polls that keep a balanced task balanced: those that report failure or nothing known,
      those that write the row of a task that has not been refunded, and those that neither
      write the row nor move money. */
  predicate Keeps(l: Ledger, p: Poll) {
    || !Known(Outcome(p.reply)) || Outcome(p.reply) == FAILURE
    || (if p.calls.update then !(l.status == FAILURE && l.refunds == 1) else Adjustment(l, p) == 0)
  }

  /** The exact condition for one poll of any balanced task. */
  lemma PollBalancedIff(l: Ledger, p: Poll)
    requires Balanced(l)
    ensures Balanced(Settle(l, p)) <==> Keeps(l, p)
  {
  }

  predicate KeepsAll(l: Ledger, polls: seq<Poll>)
    decreases |polls|
  {
    polls == [] || (Keeps(l, polls[0]) && KeepsAll(Settle(l, polls[0]), polls[1..]))
  }

  predicate BalancedThroughout(l: Ledger, polls: seq<Poll>)
    decreases |polls|
  {
    Balanced(l) && (polls == [] || BalancedThroughout(Settle(l, polls[0]), polls[1..]))
  }

  /** The exact condition for a whole run to stay balanced after every poll. */
  lemma {:induction false} RunBalancedIff(l: Ledger, polls: seq<Poll>)
    requires Balanced(l)
    ensures BalancedThroughout(l, polls) <==> KeepsAll(l, polls)
    ensures KeepsAll(l, polls) ==> Balanced(Run(l, polls))
    decreases |polls|
  {
    if polls != [] {
      PollBalancedIff(l, polls[0]);
      if Keeps(l, polls[0]) { RunBalancedIff(Settle(l, polls[0]), polls[1..]); }
    }
  }

  /** Polls whose row updates succeed and that do not take a failed task out of failure. */
  predicate Regular(l: Ledger, p: Poll) {
    p.calls.update && (l.status == FAILURE && Known(Outcome(p.reply)) ==> Outcome(p.reply) == FAILURE)
  }

  predicate RegularRun(l: Ledger, polls: seq<Poll>)
    decreases |polls|
  {
    polls == [] || (Regular(l, polls[0]) && RegularRun(Settle(l, polls[0]), polls[1..]))
  }

  lemma {:induction false} RunStaysBalanced(l: Ledger, polls: seq<Poll>)
    requires Balanced(l) && RegularRun(l, polls)
    ensures Balanced(Run(l, polls))
    decreases |polls|
  {
    if polls != [] { RunStaysBalanced(Settle(l, polls[0]), polls[1..]); }
  }

  /** The exact condition for a refunded task: it stays settled unless a poll reports it as
      anything but failed and either its row is rewritten or a re-pricing moves money. */
  lemma RefundedStaysSettledIff(l: Ledger, p: Poll)
    requires Balanced(l) && l.status == FAILURE && l.refunds == 1 && l.quota != 0
    ensures Balanced(Settle(l, p)) && Settle(l, p).status == FAILURE <==>
      Outcome(p.reply) == FAILURE || !Known(Outcome(p.reply)) || (!p.calls.update && Adjustment(l, p) == 0)
  {
  }

  const ALL_OK := Calls(true, true, true)

  function Plain(status: string): Poll {
    Poll(Reply(status, 0, None, None), ALL_OK)
  }

  /** A task reported failed, then in progress, then failed again is refunded twice. */
  lemma ReopenedTaskRefundsTwice(quota: int)
    requires quota > 0
    ensures var l := Run(Ledger(QUEUED, quota, quota, 0), [Plain(FAILURE), Plain(IN_PROGRESS), Plain(FAILURE)]);
      l.refunds == 2 && l.charge == -quota
  {
    var l0 := Ledger(QUEUED, quota, quota, 0);
    var l1 := Settle(l0, Plain(FAILURE));
    var l2 := Settle(l1, Plain(IN_PROGRESS));
    var l3 := Settle(l2, Plain(FAILURE));
    var polls := [Plain(FAILURE), Plain(IN_PROGRESS), Plain(FAILURE)];
    assert polls[1..] == [Plain(IN_PROGRESS), Plain(FAILURE)] && polls[1..][1..] == [Plain(FAILURE)] && polls[1..][1..][1..] == [];
    assert Run(l2, polls[1..][1..]) == l3;
    assert Run(l1, polls[1..]) == l3;
  }

  /** Re-pricing moves the user's charge by exactly new quota minus old quota. */
  lemma RepricingIsExact(l: Ledger, p: Poll)
    requires p.calls.update && p.calls.decrease && p.calls.increase && Reprices(p.reply)
    ensures Settle(l, p).quota == ActualQuota(p.reply.tokens, p.reply.modelRatio.value, p.reply.groupRatio.value)
    ensures Settle(l, p).charge - l.charge == Settle(l, p).quota - l.quota
    ensures MIN_QUOTA <= Settle(l, p).quota <= MAX_QUOTA
  {
    SaturationIsSafe(Fin(p.reply.tokens as real * p.reply.modelRatio.value * p.reply.groupRatio.value));
  }

  lemma ProductGrows(a: real, b: real, c: real)
    requires a <= b && c >= 0.0
    ensures a * c <= b * c
  {
    assert b * c - a * c == (b - a) * c;
  }

  lemma PriceGrows(t: real, u: real, modelRatio: real, groupRatio: real)
    requires 0.0 <= t <= u && modelRatio >= 0.0 && groupRatio >= 0.0
    ensures 0.0 <= t * modelRatio * groupRatio <= u * modelRatio * groupRatio
  {
    ProductGrows(0.0, t, modelRatio);
    ProductGrows(t, u, modelRatio);
    ProductGrows(0.0, t * modelRatio, groupRatio);
    ProductGrows(t * modelRatio, u * modelRatio, groupRatio);
  }

  lemma QuotaGrowsWithPrice(x: real, y: real)
    requires 0.0 <= x <= y
    ensures 0 <= QuotaFromFloat(Fin(x)) <= QuotaFromFloat(Fin(y)) <= MAX_QUOTA
  {
    SaturationIsSafe(Fin(x));
    SaturationIsSafe(Fin(y));
    QuotaMonotone(Fin(x), Fin(y));
  }

  /** The price behind a quota. */
  lemma QuotaOfPrice(tokens: int, modelRatio: real, groupRatio: real) returns (price: real)
    ensures price == tokens as real * modelRatio * groupRatio
    ensures ActualQuota(tokens, modelRatio, groupRatio) == QuotaFromFloat(Fin(price))
  {
    price := tokens as real * modelRatio * groupRatio;
  }

  lemma OrderedPrices(t: nat, u: nat, modelRatio: real, groupRatio: real) returns (x: real, y: real)
    requires t <= u && modelRatio >= 0.0 && groupRatio >= 0.0
    ensures 0.0 <= x <= y
    ensures ActualQuota(t, modelRatio, groupRatio) == QuotaFromFloat(Fin(x))
    ensures ActualQuota(u, modelRatio, groupRatio) == QuotaFromFloat(Fin(y))
  {
    PriceGrows(t as real, u as real, modelRatio, groupRatio);
    x := QuotaOfPrice(t, modelRatio, groupRatio);
    y := QuotaOfPrice(u, modelRatio, groupRatio);
  }

  /** More tokens never cost less. */
  lemma QuotaGrowsWithTokens(t: nat, u: nat, modelRatio: real, groupRatio: real)
    requires t <= u && modelRatio >= 0.0 && groupRatio >= 0.0
    ensures 0 <= ActualQuota(t, modelRatio, groupRatio) <= ActualQuota(u, modelRatio, groupRatio) <= MAX_QUOTA
  {
    var x, y := OrderedPrices(t, u, modelRatio, groupRatio);
    QuotaGrowsWithPrice(x, y);
  }
}
