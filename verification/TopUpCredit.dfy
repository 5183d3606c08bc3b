/**
Crediting of Epay orders. Any number of verified success callbacks run the
locked section of `EpayNotify` at once; the database calls inside the section
are separate steps that other callbacks may interleave with, and each call may
fail. The order lock is the machine of `OrderLocks`.
*/
module TopUpCredit {
  import opened Prelude
  import OrderLocks
  import QuotaMath

  type Thread = OrderLocks.Thread
  type TradeNo = OrderLocks.TradeNo
  type UserId = nat

  datatype Status = Pending | Success | OtherStatus

  datatype Order = Order(user: UserId, amount: int, isEpay: bool, paymentMethod: string, status: Status)

  /** Progress of a callback that holds the order lock. */
  datatype Stage =
    | Entered
    | Loaded(order: Order)    // GetTopUpByTradeNo returned a pending Epay order
    | Saved(order: Order)     // topUp.Update() returned without error
    | Finished                // about to run the deferred UnlockOrder

  datatype Credit = Credit(no: TradeNo, user: UserId, quota: int)

  /** `unit` is QuotaPerUnit. `paid`, `credits` and `lost` are histories: the
      committed pending-to-success writes, the committed credits, and the
      orders whose credit call failed. */
  datatype World = World(
    lock: OrderLocks.State,
    stages: map<Thread, Stage>,
    orders: map<TradeNo, Order>,
    quota: map<UserId, int>,
    unit: real,
    paid: seq<TradeNo>,
    credits: seq<Credit>,
    lost: set<TradeNo>)
  {
    function StageOf(t: Thread): Stage {
      if t in stages then stages[t] else Finished
    }

    function QuotaOf(u: UserId): int {
      if u in quota then quota[u] else 0
    }

    /** The callback of thread `t` is inside the locked section for its order. */
    predicate Inside(t: Thread) {
      lock.At(t).Critical?
    }

    function No(t: Thread): TradeNo
      requires Inside(t)
    {
      lock.At(t).no
    }
  }

  /** The integer part of a decimal product. */
  function QuotaToAdd(amount: int, unit: real): int {
    QuotaMath.Truncate(amount as real * unit)
  }

  datatype Event =
    | LockMove(move: OrderLocks.Move)
    | Load(thread: Thread)
    | Save(thread: Thread, paidWith: string, ok: bool)
    | Increase(thread: Thread, ok: bool)
    | NewOrder(no: TradeNo, order: Order)

  predicate Enabled(w: World, e: Event) {
    match e
    case LockMove(mv) =>
      OrderLocks.Enabled(w.lock, mv.thread) && (w.Inside(mv.thread) ==> w.StageOf(mv.thread).Finished?)
    case Load(t) => w.Inside(t) && w.StageOf(t).Entered?
    case Save(t, _, _) => w.Inside(t) && w.StageOf(t).Loaded?
    case Increase(t, _) => w.Inside(t) && w.StageOf(t).Saved?
    case NewOrder(no, o) => no !in w.orders && o.status == Pending
  }

  function Step(w: World, e: Event): World
    requires Enabled(w, e)
  {
    match e
    case LockMove(mv) =>
      var w' := w.(lock := OrderLocks.Step(w.lock, mv.thread, mv.no));
      if w.lock.At(mv.thread).MutexWait? then w'.(stages := w.stages[mv.thread := Entered]) else w'
    case Load(t) =>
      var no := w.No(t);
      if no in w.orders && w.orders[no].isEpay && w.orders[no].status == Pending
      then w.(stages := w.stages[t := Loaded(w.orders[no])])
      else w.(stages := w.stages[t := Finished])
    case Save(t, paidWith, ok) =>
      var o := w.StageOf(t).order;
      if ok then
        w.(orders := w.orders[w.No(t) := o.(status := Success, paymentMethod := paidWith)],
           paid := w.paid + [w.No(t)],
           stages := w.stages[t := Saved(o)])
      else w.(stages := w.stages[t := Finished])
    case Increase(t, ok) =>
      var o := w.StageOf(t).order;
      var q := QuotaToAdd(o.amount, w.unit);
      if ok && q >= 0 then
        w.(quota := w.quota[o.user := w.QuotaOf(o.user) + q],
           credits := w.credits + [Credit(w.No(t), o.user, q)],
           stages := w.stages[t := Finished])
      else w.(lost := w.lost + {w.No(t)}, stages := w.stages[t := Finished])
    case NewOrder(no, o) => w.(orders := w.orders[no := o])
  }

  predicate Schedulable(w: World, events: seq<Event>)
    decreases |events|
  {
    events == [] || (Enabled(w, events[0]) && Schedulable(Step(w, events[0]), events[1..]))
  }

  function Run(w: World, events: seq<Event>): World
    requires Schedulable(w, events)
    decreases |events|
  {
    if events == [] then w else Run(Step(w, events[0]), events[1..])
  }

  /** A server that has just started over an arbitrary order table. */
  predicate Initial(w: World) {
    w.lock == OrderLocks.EMPTY && w.stages == map[] && w.paid == [] && w.credits == [] && w.lost == {}
  }

  // ---------- the invariant ----------

  predicate Credited(w: World, no: TradeNo) {
    exists i :: 0 <= i < |w.credits| && w.credits[i].no == no
  }

  ghost predicate InFlight(w: World, no: TradeNo) {
    exists t :: t in w.stages && w.Inside(t) && w.No(t) == no && w.stages[t].Saved?
  }

  function Total(credits: seq<Credit>, u: UserId): int {
    if credits == [] then 0
    else Total(credits[..|credits| - 1], u) + (if credits[|credits| - 1].user == u then credits[|credits| - 1].quota else 0)
  }

  /** What a callback inside the section has read is still what the table holds. */
  ghost predicate StageInv(w: World) {
    forall t :: t in w.stages && w.Inside(t) ==>
      && (w.stages[t].Loaded? ==>
            w.No(t) in w.orders && w.orders[w.No(t)] == w.stages[t].order
            && w.stages[t].order.isEpay && w.stages[t].order.status == Pending)
      && (w.stages[t].Saved? ==>
            w.No(t) in w.paid && !Credited(w, w.No(t)) && w.No(t) !in w.lost
            && w.No(t) in w.orders
            && w.orders[w.No(t)].user == w.stages[t].order.user
            && w.orders[w.No(t)].amount == w.stages[t].order.amount)
  }

  ghost predicate PaidInv(w: World) {
    && (forall i, j :: 0 <= i < j < |w.paid| ==> w.paid[i] != w.paid[j])
    && (forall no :: no in w.paid ==> no in w.orders && w.orders[no].status == Success && w.orders[no].isEpay)
    && (forall no :: no in w.paid ==> Credited(w, no) || no in w.lost || InFlight(w, no))
    && (forall no :: no in w.lost ==> no in w.paid && !Credited(w, no))
  }

  ghost predicate CreditInv(w: World) {
    && (forall i, j :: 0 <= i < j < |w.credits| ==> w.credits[i].no != w.credits[j].no)
    && (forall i :: 0 <= i < |w.credits| ==>
          && w.credits[i].no in w.paid
          && w.credits[i].no in w.orders
          && w.credits[i].user == w.orders[w.credits[i].no].user
          && w.credits[i].quota == QuotaToAdd(w.orders[w.credits[i].no].amount, w.unit) >= 0)
  }

  ghost predicate TableInv(w: World) {
    StageInv(w) && PaidInv(w) && CreditInv(w)
  }

  ghost predicate Inv(w: World) {
    OrderLocks.Inv(w.lock) && TableInv(w)
  }

  /** The order lock at work: two callbacks inside the section work on different orders. */
  ghost predicate Alone(w: World) {
    forall t, u :: w.Inside(t) && w.Inside(u) && t != u ==> w.No(t) != w.No(u)
  }

  lemma LockMakesAlone(w: World)
    requires OrderLocks.Inv(w.lock)
    ensures Alone(w)
  {
    forall t, u | w.Inside(t) && w.Inside(u) && t != u
      ensures w.No(t) != w.No(u)
    {
      if w.No(t) == w.No(u) { OrderLocks.HolderIsUnique(w.lock, t, u); }
    }
  }

  /** A step that leaves a saved callback where it is leaves its order in flight. */
  lemma StaysInFlight(w: World, w': World, no: TradeNo)
    requires InFlight(w, no)
    requires forall t :: t in w.stages && w.Inside(t) && w.No(t) == no && w.stages[t].Saved? ==>
      t in w'.stages && w'.Inside(t) && w'.No(t) == no && w'.stages[t].Saved?
    ensures InFlight(w', no)
  {
    var t :| t in w.stages && w.Inside(t) && w.No(t) == no && w.stages[t].Saved?;
    assert t in w'.stages && w'.Inside(t) && w'.No(t) == no && w'.stages[t].Saved?;
  }

  // ---------- every step keeps it ----------

  /** A step that touches no table, no history and no callback inside the section. */
  lemma FrameKeepsInv(w: World, w': World)
    requires TableInv(w)
    requires w' == w.(lock := w'.lock, stages := w'.stages)
    requires forall t :: t in w.stages && w.Inside(t) && w.stages[t].Saved? ==>
      t in w'.stages && w'.Inside(t) && w'.No(t) == w.No(t) && w'.stages[t] == w.stages[t]
    requires forall t :: t in w'.stages && w'.Inside(t) ==>
      || w'.stages[t].Entered? || w'.stages[t].Finished?
      || (t in w.stages && w.Inside(t) && w'.No(t) == w.No(t) && w'.stages[t] == w.stages[t])
      || (w'.stages[t].Loaded? && w'.No(t) in w.orders && w'.stages[t].order == w.orders[w'.No(t)]
          && w'.stages[t].order.isEpay && w'.stages[t].order.status == Pending)
    ensures TableInv(w')
  {
    assert forall no :: Credited(w, no) == Credited(w', no);
    forall no | InFlight(w, no)
      ensures InFlight(w', no)
    {
      StaysInFlight(w, w', no);
    }
  }

  lemma LockMoveKeepsInv(w: World, mv: OrderLocks.Move)
    requires TableInv(w) && Enabled(w, LockMove(mv))
    ensures TableInv(Step(w, LockMove(mv)))
  {
    var w' := Step(w, LockMove(mv));
    OrderLocks.GotoOnly(w.lock, mv.thread, mv.no);
    assert forall t :: t != mv.thread ==> w'.lock.At(t) == w.lock.At(t);
    FrameKeepsInv(w, w');
  }

  lemma LoadKeepsInv(w: World, t: Thread)
    requires TableInv(w) && Enabled(w, Load(t))
    ensures TableInv(Step(w, Load(t)))
  {
    FrameKeepsInv(w, Step(w, Load(t)));
  }

  lemma FailedSaveKeepsInv(w: World, t: Thread, paidWith: string)
    requires TableInv(w) && Enabled(w, Save(t, paidWith, false))
    ensures TableInv(Step(w, Save(t, paidWith, false)))
  {
    FrameKeepsInv(w, Step(w, Save(t, paidWith, false)));
  }

  lemma SaveKeepsInv(w: World, t: Thread, paidWith: string)
    requires TableInv(w) && Alone(w) && Enabled(w, Save(t, paidWith, true))
    ensures TableInv(Step(w, Save(t, paidWith, true)))
  {
    SaveKeepsStages(w, t, paidWith);
    SaveKeepsPaid(w, t, paidWith);
    SaveKeepsCredits(w, t, paidWith);
  }

  lemma SaveKeepsStages(w: World, t: Thread, paidWith: string)
    requires StageInv(w) && PaidInv(w) && CreditInv(w) && Alone(w) && Enabled(w, Save(t, paidWith, true))
    ensures StageInv(Step(w, Save(t, paidWith, true)))
  {
    var w' := Step(w, Save(t, paidWith, true));
    assert forall no :: Credited(w, no) == Credited(w', no);
    assert w.No(t) !in w.paid;
    assert forall u :: u != t && w'.Inside(u) ==> w.No(u) != w.No(t);
  }

  lemma SaveKeepsPaid(w: World, t: Thread, paidWith: string)
    requires StageInv(w) && PaidInv(w) && Enabled(w, Save(t, paidWith, true))
    ensures PaidInv(Step(w, Save(t, paidWith, true)))
  {
    var w' := Step(w, Save(t, paidWith, true));
    assert forall no :: Credited(w, no) == Credited(w', no);
    forall no | InFlight(w, no)
      ensures InFlight(w', no)
    {
      StaysInFlight(w, w', no);
    }
    assert t in w'.stages && w'.Inside(t) && w'.No(t) == w.No(t) && w'.stages[t].Saved?;
    assert w.No(t) !in w.paid;
  }

  lemma SaveKeepsCredits(w: World, t: Thread, paidWith: string)
    requires StageInv(w) && CreditInv(w) && Enabled(w, Save(t, paidWith, true))
    ensures CreditInv(Step(w, Save(t, paidWith, true)))
  {
    var w' := Step(w, Save(t, paidWith, true));
    assert w'.orders[w.No(t)].amount == w.orders[w.No(t)].amount;
  }

  lemma CreditedAfter(w: World, t: Thread, ok: bool, no: TradeNo)
    requires Enabled(w, Increase(t, ok))
    ensures var w' := Step(w, Increase(t, ok));
      Credited(w', no) <==> Credited(w, no) || (no == w.No(t) && |w'.credits| > |w.credits|)
  {
    var w' := Step(w, Increase(t, ok));
    if Credited(w, no) {
      var i :| 0 <= i < |w.credits| && w.credits[i].no == no;
      assert w'.credits[i].no == no;
    }
    if |w'.credits| > |w.credits| {
      assert w'.credits[|w.credits|].no == w.No(t);
    }
  }

  lemma IncreaseKeepsInv(w: World, t: Thread, ok: bool)
    requires TableInv(w) && Alone(w) && Enabled(w, Increase(t, ok))
    ensures TableInv(Step(w, Increase(t, ok)))
  {
    forall no
      ensures var w' := Step(w, Increase(t, ok));
        Credited(w', no) <==> Credited(w, no) || (no == w.No(t) && |w'.credits| > |w.credits|)
    {
      CreditedAfter(w, t, ok, no);
    }
    IncreaseKeepsStages(w, t, ok);
    IncreaseKeepsPaid(w, t, ok);
    IncreaseKeepsCredits(w, t, ok);
  }

  lemma IncreaseKeepsStages(w: World, t: Thread, ok: bool)
    requires StageInv(w) && Alone(w) && Enabled(w, Increase(t, ok))
    requires forall no :: Credited(Step(w, Increase(t, ok)), no) ==> Credited(w, no) || no == w.No(t)
    ensures StageInv(Step(w, Increase(t, ok)))
  {
    var w' := Step(w, Increase(t, ok));
    assert forall u :: u != t && w'.Inside(u) ==> w.No(u) != w.No(t);
  }

  lemma IncreaseKeepsPaid(w: World, t: Thread, ok: bool)
    requires StageInv(w) && PaidInv(w) && Enabled(w, Increase(t, ok))
    requires forall no :: var w' := Step(w, Increase(t, ok));
      Credited(w', no) <==> Credited(w, no) || (no == w.No(t) && |w'.credits| > |w.credits|)
    ensures PaidInv(Step(w, Increase(t, ok)))
  {
    var w' := Step(w, Increase(t, ok));
    forall no | InFlight(w, no) && no != w.No(t)
      ensures InFlight(w', no)
    {
      StaysInFlight(w, w', no);
    }
  }

  lemma IncreaseKeepsCredits(w: World, t: Thread, ok: bool)
    requires StageInv(w) && CreditInv(w) && Enabled(w, Increase(t, ok))
    ensures CreditInv(Step(w, Increase(t, ok)))
  {
    assert forall i :: 0 <= i < |w.credits| ==> w.credits[i].no != w.No(t);
  }

  lemma NewOrderKeepsInv(w: World, no: TradeNo, o: Order)
    requires TableInv(w) && Enabled(w, NewOrder(no, o))
    ensures TableInv(Step(w, NewOrder(no, o)))
  {
    var w' := Step(w, NewOrder(no, o));
    forall n | InFlight(w, n)
      ensures InFlight(w', n)
    {
      StaysInFlight(w, w', n);
    }
    assert forall n :: Credited(w, n) == Credited(w', n);
    assert forall n :: n in w.orders ==> n != no && w'.orders[n] == w.orders[n];
  }

  lemma StepKeepsInv(w: World, e: Event)
    requires Inv(w) && Enabled(w, e)
    ensures Inv(Step(w, e))
  {
    LockMakesAlone(w);
    match e
    case LockMove(mv) =>
      LockMoveKeepsInv(w, mv);
      OrderLocks.StepKeepsInv(w.lock, mv.thread, mv.no);
    case Load(t) => LoadKeepsInv(w, t);
    case Save(t, paidWith, ok) =>
      if ok { SaveKeepsInv(w, t, paidWith); } else { FailedSaveKeepsInv(w, t, paidWith); }
    case Increase(t, ok) => IncreaseKeepsInv(w, t, ok);
    case NewOrder(no, o) => NewOrderKeepsInv(w, no, o);
  }

  lemma {:induction false} RunKeepsInv(w: World, events: seq<Event>)
    requires Inv(w) && Schedulable(w, events)
    ensures Inv(Run(w, events))
    decreases |events|
  {
    if events != [] {
      StepKeepsInv(w, events[0]);
      RunKeepsInv(Step(w, events[0]), events[1..]);
    }
  }

  // ---------- what every interleaving guarantees ----------

  lemma InitialInv(w: World)
    requires Initial(w)
    ensures Inv(w)
  {
    OrderLocks.EmptyInv();
  }

  /** The credit belongs to a successful Epay order and its user, and is the integer part of the
      order's amount times QuotaPerUnit. */
  predicate RightCredit(w: World, c: Credit) {
    && c.no in w.orders && w.orders[c.no].status == Success && w.orders[c.no].isEpay
    && c.user == w.orders[c.no].user
    && RightQuota(c.quota, w.orders[c.no].amount, w.unit)
  }

  lemma CreditFacts(w: World, i: nat) returns (c: Credit, o: Order)
    requires PaidInv(w) && CreditInv(w) && i < |w.credits|
    ensures c == w.credits[i] && c.no in w.orders && o == w.orders[c.no]
    ensures o.status == Success && o.isEpay && c.user == o.user
    ensures c.quota == QuotaToAdd(o.amount, w.unit) && c.quota >= 0
  {
    c := w.credits[i];
    o := w.orders[c.no];
  }

  lemma CreditIsRight(w: World, i: nat)
    requires PaidInv(w) && CreditInv(w) && i < |w.credits|
    ensures RightCredit(w, w.credits[i])
  {
    var c, o := CreditFacts(w, i);
    CreditIsIntegerPart(o.amount, w.unit);
  }

  /** No order is marked paid twice or credited twice, and every credit is right. */
  lemma CreditedAtMostOnce(w0: World, events: seq<Event>)
    requires Initial(w0) && Schedulable(w0, events)
    ensures var w := Run(w0, events);
      && (forall i, j :: 0 <= i < j < |w.paid| ==> w.paid[i] != w.paid[j])
      && (forall i, j :: 0 <= i < j < |w.credits| ==> w.credits[i].no != w.credits[j].no)
      && (forall i :: 0 <= i < |w.credits| ==> RightCredit(w, w.credits[i]))
  {
    InitialInv(w0);
    RunKeepsInv(w0, events);
    forall i | 0 <= i < |Run(w0, events).credits| ensures RightCredit(Run(w0, events), Run(w0, events).credits[i]) {
      CreditIsRight(Run(w0, events), i);
    }
  }

  /** The credited quota against the decimal product it comes from; negative credits are refused. */
  predicate IsIntegerPart(q: int, x: real) {
    (x >= 0.0 ==> q as real <= x < q as real + 1.0) && (x < 0.0 ==> q == 0 && x > -1.0)
  }

  /** The integer part of amount times unit. */
  predicate RightQuota(q: int, amount: int, unit: real) {
    IsIntegerPart(q, amount as real * unit)
  }

  lemma CreditIsIntegerPart(amount: int, unit: real)
    ensures QuotaToAdd(amount, unit) >= 0 ==> RightQuota(QuotaToAdd(amount, unit), amount, unit)
    ensures amount as real * unit >= 0.0 ==> QuotaToAdd(amount, unit) >= 0
  {
    QuotaMath.TruncateIsClose(amount as real * unit);
  }

  /** A paid order is in exactly one of three conditions: credited, about to be credited by the
      callback that holds its lock, or its credit call failed. Once no callback is inside and
      no credit call failed, every paid order has been credited. */
  lemma EveryPaymentAccounted(w0: World, events: seq<Event>, no: TradeNo)
    requires Initial(w0) && Schedulable(w0, events)
    requires no in Run(w0, events).paid
    ensures var w := Run(w0, events);
      && (Credited(w, no) || InFlight(w, no) || no in w.lost)
      && !(Credited(w, no) && InFlight(w, no))
      && !(Credited(w, no) && no in w.lost)
      && !(InFlight(w, no) && no in w.lost)
      && ((forall t :: !w.Inside(t)) && w.lost == {} ==> Credited(w, no))
  {
    InitialInv(w0);
    RunKeepsInv(w0, events);
  }

  /** The sum over a user's credits: nothing for none, and each credit once for its user only. */
  lemma {:induction false} TotalAdds(xs: seq<Credit>, ys: seq<Credit>, u: UserId)
    ensures Total([], u) == 0 && Total(xs + ys, u) == Total(xs, u) + Total(ys, u)
    ensures forall c: Credit :: Total([c], u) == if c.user == u then c.quota else 0
    decreases |ys|
  {
    assert forall c: Credit :: [c][..0] == [];
    if ys == [] {
      assert xs + ys == xs;
    } else {
      TotalAdds(xs, ys[..|ys| - 1], u);
      assert (xs + ys)[..|xs + ys| - 1] == xs + ys[..|ys| - 1];
    }
  }

  /** Every user's quota moves by exactly the sum of the credits to that user. */
  lemma {:induction false} QuotaIsConserved(w: World, events: seq<Event>, u: UserId)
    requires Schedulable(w, events)
    ensures Run(w, events).QuotaOf(u) - Total(Run(w, events).credits, u) == w.QuotaOf(u) - Total(w.credits, u)
    decreases |events|
  {
    if events != [] {
      var w' := Step(w, events[0]);
      if |w'.credits| > |w.credits| {
        assert w'.credits[..|w'.credits| - 1] == w.credits;
      }
      QuotaIsConserved(w', events[1..], u);
    }
  }

  /** What a run does to an order: it stays, with its user, amount and gateway, and its status only
      goes from pending to success, which is the case exactly if it has been paid. */
  predicate KeepsTerms(before: Order, after: Order, paid: bool) {
    && after.user == before.user && after.amount == before.amount && after.isEpay == before.isEpay
    && (if paid then after.status == Success else after == before)
  }

  lemma {:induction false} OrdersKeepTheirTerms(w: World, events: seq<Event>, no: TradeNo)
    requires Inv(w) && Schedulable(w, events) && no in w.orders && no !in w.paid
    ensures no in Run(w, events).orders
    ensures KeepsTerms(w.orders[no], Run(w, events).orders[no], no in Run(w, events).paid)
    decreases |events|
  {
    if events != [] {
      StepKeepsInv(w, events[0]);
      StepKeepsTerms(w, events[0], no);
      if no in Step(w, events[0]).paid {
        PaidStaysPaid(Step(w, events[0]), events[1..], no);
      } else {
        OrdersKeepTheirTerms(Step(w, events[0]), events[1..], no);
      }
    }
  }

  lemma StepKeepsTerms(w: World, e: Event, no: TradeNo)
    requires StageInv(w) && Enabled(w, e) && no in w.orders && no !in w.paid
    ensures no in Step(w, e).orders && KeepsTerms(w.orders[no], Step(w, e).orders[no], no in Step(w, e).paid)
  {
  }

  lemma {:induction false} PaidStaysPaid(w: World, events: seq<Event>, no: TradeNo)
    requires Inv(w) && Schedulable(w, events) && no in w.paid
    ensures no in Run(w, events).paid && no in w.orders && no in Run(w, events).orders
    ensures Run(w, events).orders[no] == w.orders[no]
    decreases |events|
  {
    if events != [] {
      StepKeepsInv(w, events[0]);
      LockMakesAlone(w);
      PaidStep(w, events[0], no);
      PaidStaysPaid(Step(w, events[0]), events[1..], no);
    }
  }

  lemma PaidStep(w: World, e: Event, no: TradeNo)
    requires Inv(w) && Enabled(w, e) && no in w.paid
    ensures no in Step(w, e).paid && no in Step(w, e).orders && Step(w, e).orders[no] == w.orders[no]
  {
  }

  /** A callback that gets through credits the order: with a pending Epay order whose product is not
      negative, its load, save and credit mark it successful with the method the gateway reported
      and raise the user's quota, whatever other callbacks did before. */
  lemma CallbackCredits(w: World, t: Thread, paidWith: string)
    requires w.Inside(t) && w.StageOf(t).Entered? && w.No(t) in w.orders
    requires w.orders[w.No(t)].isEpay && w.orders[w.No(t)].status == Pending
    requires w.orders[w.No(t)].amount as real * w.unit >= 0.0
    ensures var events := [Load(t), Save(t, paidWith, true), Increase(t, true)];
      && Schedulable(w, events)
      && var w' := Run(w, events);
      && var o, no := w.orders[w.No(t)], w.No(t);
      && w'.orders == w.orders[no := o.(status := Success, paymentMethod := paidWith)]
      && |w'.credits| == |w.credits| + 1 && w'.lost == w.lost
      && var c := w'.credits[|w.credits|];
      && c.no == no && c.user == o.user && RightQuota(c.quota, o.amount, w.unit)
      && w'.QuotaOf(o.user) == w.QuotaOf(o.user) + c.quota
  {
    var w1 := Step(w, Load(t));
    var w2 := Step(w1, Save(t, paidWith, true));
    CreditIsIntegerPart(w.orders[w.No(t)].amount, w.unit);
    RunOfThree(w, Load(t), Save(t, paidWith, true), Increase(t, true));
  }

  lemma RunOfThree(w: World, a: Event, b: Event, c: Event)
    requires Enabled(w, a) && Enabled(Step(w, a), b) && Enabled(Step(Step(w, a), b), c)
    ensures Schedulable(w, [a, b, c]) && Run(w, [a, b, c]) == Step(Step(Step(w, a), b), c)
  {
    var w1, w2 := Step(w, a), Step(Step(w, a), b);
    assert [c][1..] == [] && Run(w2, [c]) == Run(Step(w2, c), []);
    assert [b, c][1..] == [c] && Run(w1, [b, c]) == Run(w2, [c]);
    assert [a, b, c][1..] == [b, c];
  }

  /** An order is counted as lost only when its credit call failed or its product is negative. */
  lemma LostOnlyOnFailure(w: World, e: Event, no: TradeNo)
    requires Enabled(w, e) && no !in w.lost && no in Step(w, e).lost
    ensures e.Increase? && w.No(e.thread) == no
    ensures !e.ok || w.StageOf(e.thread).order.amount as real * w.unit < 0.0
  {
    CreditIsIntegerPart(w.StageOf(e.thread).order.amount, w.unit);
  }
}
