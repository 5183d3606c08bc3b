/**
Multi-key channels. Next to the key list, five sparse maps from key index to
status, disabled time, disabled reason, weight and priority describe the keys;
deletions re-index the maps. The module shows that this state behaves like a
plain sequence of key records, and exactly when the saved row still does.
*/
module MultiKeys {
  import opened Prelude

  const ENABLED := 1
  const MANUALLY_DISABLED := 2
  const AUTO_DISABLED := 3

  datatype Info = Info(
    size: int,                      // MultiKeySize
    status: map<int, int>,          // MultiKeyStatusList
    time: map<int, int>,            // MultiKeyDisabledTime
    reason: map<int, string>,       // MultiKeyDisabledReason
    weight: map<int, nat>,          // MultiKeyWeightList
    priority: map<int, int>)        // MultiKeyPriorityList

  /** A channel as one request sees it. */
  datatype Keyed = Keyed(keys: seq<string>, info: Info)

  /** What one key looks like to a reader of the channel. */
  datatype Record = Record(
    key: string, status: int, time: Option<int>, reason: Option<string>, weight: nat, priority: int)

  function Get<T>(m: map<int, T>, i: int, default: T): T {
    if i in m then m[i] else default
  }

  function Find<T>(m: map<int, T>, i: int): Option<T> {
    if i in m then Some(m[i]) else None
  }

  function RecordAt(k: Keyed, i: nat): Record
    requires i < |k.keys|
  {
    Record(k.keys[i], Get(k.info.status, i, ENABLED), Find(k.info.time, i), Find(k.info.reason, i),
           Get(k.info.weight, i, 0), Get(k.info.priority, i, 0))
  }

  function Records(k: Keyed): (rs: seq<Record>)
    ensures |rs| == |k.keys|
    ensures forall i :: 0 <= i < |rs| ==> rs[i] == RecordAt(k, i)
  {
    seq(|k.keys|, i requires 0 <= i < |k.keys| => RecordAt(k, i))
  }

  predicate InRange<T>(m: map<int, T>, n: int) {
    forall i :: i in m ==> 0 <= i < n
  }

  predicate Valid(k: Keyed) {
    && k.info.size == |k.keys|
    && InRange(k.info.status, |k.keys|) && InRange(k.info.time, |k.keys|) && InRange(k.info.reason, |k.keys|)
    && InRange(k.info.weight, |k.keys|) && InRange(k.info.priority, |k.keys|)
  }

  /** Disabled times and reasons are kept only for keys that are not enabled. */
  predicate NoLeftovers(k: Keyed) {
    && (forall i :: i in k.info.time ==> Status(k, i) != ENABLED)
    && (forall i :: i in k.info.reason ==> Status(k, i) != ENABLED)
  }

  datatype Action =
    | SetConfig(index: Option<int>, weight: Option<nat>, priority: Option<int>)
    | DisableKey(index: Option<int>)
    | EnableKey(index: Option<int>)
    | EnableAll
    | DisableAll
    | DeleteKey(index: Option<int>)
    | DeleteDisabled

  // ---------- the plain operations on records ----------

  predicate Names(index: Option<int>, n: int) {
    index.Some? && 0 <= index.value < n
  }

  /** Keep the elements whose position satisfies `keep`. */
  function Select<T>(xs: seq<T>, keep: int -> bool): seq<T> {
    if xs == [] then []
    else Select(xs[..|xs| - 1], keep) + (if keep(|xs| - 1) then [xs[|xs| - 1]] else [])
  }

  function Enabled(r: Record): Record {
    r.(status := ENABLED, time := None, reason := None)
  }

  function Disabled(r: Record): Record {
    if r.status == ENABLED then r.(status := MANUALLY_DISABLED) else r
  }

  /** Removing dead keys also drops the disabled time and reason of enabled keys. */
  function Surviving(r: Record): Record {
    if r.status == ENABLED then Enabled(r) else r
  }

  function MapRecords(f: Record -> Record, rs: seq<Record>): (r: seq<Record>)
    ensures |r| == |rs| && forall i :: 0 <= i < |rs| ==> r[i] == f(rs[i])
  {
    seq(|rs|, i requires 0 <= i < |rs| => f(rs[i]))
  }

  function NotAuto(rs: seq<Record>): int -> bool {
    i => 0 <= i < |rs| && rs[i].status != AUTO_DISABLED
  }

  predicate AnyRecord(rs: seq<Record>, status: int) {
    exists i :: 0 <= i < |rs| && rs[i].status == status
  }

  /** The action on a plain list of records; None when the request is refused. */
  function Plan(rs: seq<Record>, a: Action): Option<seq<Record>> {
    match a
    case SetConfig(index, w, p) =>
      if !Names(index, |rs|) || (w.None? && p.None?) then None
      else
        var r := rs[index.value];
        Some(rs[index.value := r.(weight := if w.Some? then w.value else r.weight,
                                  priority := if p.Some? then p.value else r.priority)])
    case DisableKey(index) =>
      if !Names(index, |rs|) then None
      else Some(rs[index.value := rs[index.value].(status := MANUALLY_DISABLED)])
    case EnableKey(index) =>
      if !Names(index, |rs|) then None else Some(rs[index.value := Enabled(rs[index.value])])
    case EnableAll => Some(MapRecords(Enabled, rs))
    case DisableAll =>
      if AnyRecord(rs, ENABLED) then Some(MapRecords(Disabled, rs)) else None
    case DeleteKey(index) =>
      if !Names(index, |rs|) || |rs| == 1 then None
      else Some(rs[..index.value] + rs[index.value + 1..])
    case DeleteDisabled =>
      if AnyRecord(rs, AUTO_DISABLED)
      then Some(MapRecords(Surviving, Select(rs, NotAuto(rs)))) else None
  }

  /** The same records but for the one at `i`. */
  predicate OnlyAt(rs: seq<Record>, rs': seq<Record>, i: int) {
    |rs'| == |rs| && 0 <= i < |rs| && forall j :: 0 <= j < |rs| && j != i ==> rs'[j] == rs[j]
  }

  predicate SameKeys(rs: seq<Record>, rs': seq<Record>) {
    |rs'| == |rs| && forall j :: 0 <= j < |rs| ==> rs'[j].key == rs[j].key && rs'[j].weight == rs[j].weight && rs'[j].priority == rs[j].priority
  }

  /** Setting a configuration needs a known position and something to set, and changes no more. */
  lemma SetConfigIsExact(rs: seq<Record>, i: int, w: Option<nat>, p: Option<int>)
    ensures Plan(rs, SetConfig(None, w, p)).None?
    ensures var plan := Plan(rs, SetConfig(Some(i), w, p));
      && (plan.Some? <==> 0 <= i < |rs| && (w.Some? || p.Some?))
      && (plan.Some? ==>
            && OnlyAt(rs, plan.value, i)
            && var r, r' := rs[i], plan.value[i];
               && r'.key == r.key && r'.status == r.status && r'.time == r.time && r'.reason == r.reason
               && r'.weight == (if w.Some? then w.value else r.weight) && r'.priority == (if p.Some? then p.value else r.priority))
  {
  }

  /** Disabling a key sets its status to 2; enabling it sets it to 1 and forgets when and why it
      was disabled. */
  lemma SwitchIsExact(rs: seq<Record>, i: int)
    ensures Plan(rs, DisableKey(None)).None? && Plan(rs, EnableKey(None)).None?
    ensures Plan(rs, DisableKey(Some(i))).Some? <==> 0 <= i < |rs|
    ensures Plan(rs, EnableKey(Some(i))).Some? <==> 0 <= i < |rs|
    ensures 0 <= i < |rs| ==>
      var off, on, r := Plan(rs, DisableKey(Some(i))).value, Plan(rs, EnableKey(Some(i))).value, rs[i];
      && OnlyAt(rs, off, i) && off[i] == Record(r.key, 2, r.time, r.reason, r.weight, r.priority)
      && OnlyAt(rs, on, i) && on[i] == Record(r.key, 1, None, None, r.weight, r.priority)
  {
  }

  /** Enabling all keys never fails; disabling all needs an enabled key and changes only those. */
  lemma SwitchAllIsExact(rs: seq<Record>)
    ensures var on := Plan(rs, EnableAll);
      on.Some? && SameKeys(rs, on.value)
      && forall i :: 0 <= i < |rs| ==> on.value[i].status == 1 && on.value[i].time.None? && on.value[i].reason.None?
    ensures var off := Plan(rs, DisableAll);
      && (off.Some? <==> exists i :: 0 <= i < |rs| && rs[i].status == 1)
      && (off.Some? ==> SameKeys(rs, off.value) && forall i :: 0 <= i < |rs| ==>
            && off.value[i].time == rs[i].time && off.value[i].reason == rs[i].reason
            && off.value[i].status == if rs[i].status == 1 then 2 else rs[i].status)
  {
  }

  /** Deleting a key needs a known position and another key to stay. */
  lemma DeleteKeyIsExact(rs: seq<Record>, i: int)
    ensures Plan(rs, DeleteKey(None)).None?
    ensures var plan := Plan(rs, DeleteKey(Some(i)));
      && (plan.Some? <==> 0 <= i < |rs| && |rs| > 1)
      && (plan.Some? ==>
            && |plan.value| == |rs| - 1
            && forall j :: 0 <= j < |plan.value| ==> plan.value[j] == rs[if j < i then j else j + 1])
  {
  }

  /** Deleting the dead keys needs one with status 3 and keeps exactly the others, in order; of
      enabled keys it forgets when and why they were disabled. `ps` are the positions kept. */
  lemma DeleteDisabledIsExact(rs: seq<Record>) returns (ps: seq<int>)
    ensures Plan(rs, DeleteDisabled).Some? <==> exists i :: 0 <= i < |rs| && rs[i].status == 3
    ensures forall a, b :: 0 <= a < b < |ps| ==> ps[a] < ps[b]
    ensures forall i :: i in ps <==> 0 <= i < |rs| && rs[i].status != 3
    ensures forall j :: 0 <= j < |ps| ==> 0 <= ps[j] < |rs|
    ensures Plan(rs, DeleteDisabled).Some? ==>
      var plan := Plan(rs, DeleteDisabled).value;
      |plan| == |ps| && forall j :: 0 <= j < |ps| ==>
        var r := rs[ps[j]];
        plan[j] == if r.status == 1 then Record(r.key, 1, None, None, r.weight, r.priority) else r
  {
    ps := Kept(|rs|, NotAuto(rs));
    SelectIsKept(rs, NotAuto(rs));
    forall i ensures i in ps <==> 0 <= i < |rs| && rs[i].status != 3 {
      KeptIff(|rs|, NotAuto(rs), i);
    }
  }

  // ---------- the same operations on the sparse maps ----------

  /** The old positions of the keys that stay, in order. */
  function Kept(n: nat, keep: int -> bool): (ps: seq<int>)
    ensures forall j :: 0 <= j < |ps| ==> 0 <= ps[j] < n && keep(ps[j])
    ensures forall i, j :: 0 <= i < j < |ps| ==> ps[i] < ps[j]
  {
    if n == 0 then []
    else Kept(n - 1, keep) + (if keep(n - 1) then [n - 1] else [])
  }

  lemma {:induction false} KeptIff(n: nat, keep: int -> bool, i: int)
    ensures i in Kept(n, keep) <==> 0 <= i < n && keep(i)
    decreases n
  {
    if n > 0 { KeptIff(n - 1, keep, i); }
  }

  /** Copy the entry of old position `i` to new position `j`, if there is one worth keeping. */
  function Copy<T>(from: map<int, T>, i: int, to: map<int, T>, j: int, worth: (int, T) -> bool): map<int, T> {
    if i in from && worth(i, from[i]) then to[j := from[i]] else to
  }

  /** Re-index a sparse map: position j takes the entry of old position ps[j]. */
  function Reindex<T>(m: map<int, T>, ps: seq<int>, worth: (int, T) -> bool): map<int, T> {
    if ps == [] then map[]
    else Copy(m, ps[|ps| - 1], Reindex(m, ps[..|ps| - 1], worth), |ps| - 1, worth)
  }

  function Unlike<T(==)>(zero: T): (int, T) -> bool { (i, v) => v != zero }

  function AtLively<T>(lively: int -> bool): (int, T) -> bool { (i, v) => lively(i) }

  function KeysAt(keys: seq<string>, ps: seq<int>): (r: seq<string>)
    requires forall j :: 0 <= j < |ps| ==> 0 <= ps[j] < |keys|
    ensures |r| == |ps| && forall j :: 0 <= j < |ps| ==> r[j] == keys[ps[j]]
  {
    seq(|ps|, j requires 0 <= j < |ps| => keys[ps[j]])
  }

  function Status(k: Keyed, i: int): int {
    Get(k.info.status, i, ENABLED)
  }

  predicate AnyKey(k: Keyed, n: int, status: int) {
    exists i :: 0 <= i < n && Status(k, i) == status
  }

  /** `lively` says whether the disabled time and reason of a position survive. */
  function Retain(k: Keyed, ps: seq<int>, lively: int -> bool): Keyed
    requires forall j :: 0 <= j < |ps| ==> 0 <= ps[j] < |k.keys|
  {
    Keyed(KeysAt(k.keys, ps), Info(
      |ps|,
      Reindex(k.info.status, ps, Unlike(ENABLED)),
      Reindex(k.info.time, ps, AtLively(lively)),
      Reindex(k.info.reason, ps, AtLively(lively)),
      Reindex(k.info.weight, ps, Unlike(0)),
      Reindex(k.info.priority, ps, Unlike(0))))
  }

  function SetOrDelete<T(==)>(m: map<int, T>, i: int, v: Option<T>, zero: T): map<int, T> {
    if v.None? then m else if v.value == zero then m - {i} else m[i := v.value]
  }

  function NotAt(i: int): int -> bool { j => j != i }

  function Alive(k: Keyed): int -> bool { i => Status(k, i) != AUTO_DISABLED }

  function Lively(k: Keyed): int -> bool { i => Status(k, i) != ENABLED }

  function Everywhere(): int -> bool { i => true }

  /** The action on the sparse state; None when the request is refused. */
  function Act(k: Keyed, a: Action): Option<Keyed> {
    match a
    case SetConfig(index, w, p) =>
      if !Names(index, k.info.size) || (w.None? && p.None?) then None
      else Some(k.(info := k.info.(
        weight := SetOrDelete(k.info.weight, index.value, w, 0),
        priority := SetOrDelete(k.info.priority, index.value, p, 0))))
    case DisableKey(index) =>
      if !Names(index, k.info.size) then None
      else Some(k.(info := k.info.(status := k.info.status[index.value := MANUALLY_DISABLED])))
    case EnableKey(index) =>
      if !Names(index, k.info.size) then None
      else Some(k.(info := k.info.(status := k.info.status - {index.value},
                                   time := k.info.time - {index.value},
                                   reason := k.info.reason - {index.value})))
    case EnableAll => Some(k.(info := k.info.(status := map[], time := map[], reason := map[])))
    case DisableAll =>
      if AnyKey(k, k.info.size, ENABLED)
      then Some(k.(info := k.info.(status := DisabledAll(k, k.info.size)))) else None
    case DeleteKey(index) =>
      if !Names(index, k.info.size) || |Kept(|k.keys|, NotAt(index.value))| == 0 then None
      else Some(Retain(k, Kept(|k.keys|, NotAt(index.value)), Everywhere()))
    case DeleteDisabled =>
      if AnyKey(k, |k.keys|, AUTO_DISABLED)
      then Some(Retain(k, Kept(|k.keys|, Alive(k)), Lively(k))) else None
  }

  function DisabledAll(k: Keyed, n: int): map<int, int>
    decreases n
  {
    if n <= 0 then k.info.status
    else
      var m := DisabledAll(k, n - 1);
      if Status(k, n - 1) == ENABLED then m[n - 1 := MANUALLY_DISABLED] else m
  }

  // ---------- refinement ----------

  /** Position j of a selection is position Kept[j] of the original. */
  lemma {:induction false} SelectIsKept<T>(xs: seq<T>, keep: int -> bool)
    ensures |Select(xs, keep)| == |Kept(|xs|, keep)|
    ensures forall j :: 0 <= j < |Select(xs, keep)| ==> Select(xs, keep)[j] == xs[Kept(|xs|, keep)[j]]
    decreases |xs|
  {
    if xs != [] {
      SelectIsKept(xs[..|xs| - 1], keep);
    }
  }

  lemma {:induction false} SelectNotAt<T>(xs: seq<T>, i: nat)
    requires i < |xs|
    ensures Select(xs, NotAt(i)) == xs[..i] + xs[i + 1..]
    decreases |xs|
  {
    var init := xs[..|xs| - 1];
    if i == |init| {
      SelectAll(init, NotAt(i));
    } else {
      SelectNotAt(init, i);
      assert init[..i] + init[i + 1..] + [xs[|xs| - 1]] == xs[..i] + xs[i + 1..];
    }
  }

  lemma {:induction false} SelectAll<T>(xs: seq<T>, keep: int -> bool)
    requires forall i :: 0 <= i < |xs| ==> keep(i)
    ensures Select(xs, keep) == xs
    decreases |xs|
  {
    if xs != [] {
      SelectAll(xs[..|xs| - 1], keep);
    }
  }

  lemma {:induction false} ReindexEntry<T>(m: map<int, T>, ps: seq<int>, worth: (int, T) -> bool, j: int)
    ensures j in Reindex(m, ps, worth) <==> 0 <= j < |ps| && ps[j] in m && worth(ps[j], m[ps[j]])
    ensures j in Reindex(m, ps, worth) ==> Reindex(m, ps, worth)[j] == m[ps[j]]
    decreases |ps|
  {
    if ps != [] { ReindexEntry(m, ps[..|ps| - 1], worth, j); }
  }

  lemma ReindexInRange<T>(m: map<int, T>, ps: seq<int>, worth: (int, T) -> bool)
    ensures InRange(Reindex(m, ps, worth), |ps|)
  {
    forall j | j in Reindex(m, ps, worth) ensures 0 <= j < |ps| { ReindexEntry(m, ps, worth, j); }
  }

  /** Re-indexing never moves metadata to another key. */
  lemma RetainedRecord(k: Keyed, ps: seq<int>, lively: int -> bool, j: nat)
    requires forall j :: 0 <= j < |ps| ==> 0 <= ps[j] < |k.keys|
    requires j < |ps|
    ensures var r := RecordAt(k, ps[j]);
      RecordAt(Retain(k, ps, lively), j) == if lively(ps[j]) then r else r.(time := None, reason := None)
  {
    ReindexEntry(k.info.status, ps, Unlike(ENABLED), j);
    ReindexEntry(k.info.time, ps, AtLively(lively), j);
    ReindexEntry(k.info.reason, ps, AtLively(lively), j);
    ReindexEntry(k.info.weight, ps, Unlike(0), j);
    ReindexEntry(k.info.priority, ps, Unlike(0), j);
  }

  lemma RetainIsValid(k: Keyed, ps: seq<int>, lively: int -> bool)
    requires forall j :: 0 <= j < |ps| ==> 0 <= ps[j] < |k.keys|
    ensures Valid(Retain(k, ps, lively))
  {
    ReindexInRange(k.info.status, ps, Unlike(ENABLED));
    ReindexInRange(k.info.time, ps, AtLively(lively));
    ReindexInRange(k.info.reason, ps, AtLively(lively));
    ReindexInRange(k.info.weight, ps, Unlike(0));
    ReindexInRange(k.info.priority, ps, Unlike(0));
  }

  lemma DeleteKeyRefines(k: Keyed, i: nat)
    requires Valid(k) && i < |k.keys|
    ensures |Kept(|k.keys|, NotAt(i))| == |k.keys| - 1
    ensures var k' := Retain(k, Kept(|k.keys|, NotAt(i)), Everywhere());
      Valid(k') && Records(k') == Records(k)[..i] + Records(k)[i + 1..]
  {
    var ps := Kept(|k.keys|, NotAt(i));
    var rs := Records(k);
    SelectIsKept(rs, NotAt(i));
    SelectNotAt(rs, i);
    RetainIsValid(k, ps, Everywhere());
    forall j | 0 <= j < |ps|
      ensures RecordAt(Retain(k, ps, Everywhere()), j) == rs[ps[j]]
    {
      RetainedRecord(k, ps, Everywhere(), j);
    }
  }

  lemma {:induction false} KeptAgree(n: nat, p: int -> bool, q: int -> bool)
    requires forall i :: 0 <= i < n ==> p(i) == q(i)
    ensures Kept(n, p) == Kept(n, q)
  {
    if n > 0 { KeptAgree(n - 1, p, q); }
  }

  lemma SurvivingRecord(k: Keyed, ps: seq<int>, j: nat)
    requires j < |ps| && forall i :: 0 <= i < |ps| ==> 0 <= ps[i] < |k.keys|
    ensures RecordAt(Retain(k, ps, Lively(k)), j) == Surviving(RecordAt(k, ps[j]))
  {
    RetainedRecord(k, ps, Lively(k), j);
  }

  lemma SurvivorsAre(k: Keyed)
    ensures var rs, ps := Records(k), Kept(|k.keys|, Alive(k));
      && |Select(rs, NotAuto(rs))| == |ps|
      && forall j :: 0 <= j < |ps| ==> Select(rs, NotAuto(rs))[j] == RecordAt(k, ps[j])
  {
    var rs := Records(k);
    KeptAgree(|k.keys|, Alive(k), NotAuto(rs));
    SelectIsKept(rs, NotAuto(rs));
  }

  lemma DeleteDisabledRefines(k: Keyed)
    requires Valid(k)
    ensures var k' := Retain(k, Kept(|k.keys|, Alive(k)), Lively(k)); var rs := Records(k);
      Valid(k') && Records(k') == MapRecords(Surviving, Select(rs, NotAuto(rs)))
  {
    var ps := Kept(|k.keys|, Alive(k));
    RetainIsValid(k, ps, Lively(k));
    SurvivorsAre(k);
    forall j | 0 <= j < |ps|
      ensures RecordAt(Retain(k, ps, Lively(k)), j) == Surviving(RecordAt(k, ps[j]))
    {
      SurvivingRecord(k, ps, j);
    }
  }

  /** `Act` on `k` does what `Plan` does on its records. */
  ghost predicate Refines(k: Keyed, a: Action) {
    match Act(k, a)
    case None => Plan(Records(k), a).None?
    case Some(k') => Valid(k') && Plan(Records(k), a) == Some(Records(k'))
  }

  lemma SetConfigRefines(k: Keyed, index: Option<int>, weight: Option<nat>, priority: Option<int>)
    requires Valid(k)
    ensures Refines(k, SetConfig(index, weight, priority))
  {
    var a := SetConfig(index, weight, priority);
    if Act(k, a).Some? {
      assert Records(Act(k, a).value) == Plan(Records(k), a).value;
    }
  }

  lemma DisableKeyRefines(k: Keyed, index: Option<int>)
    requires Valid(k)
    ensures Refines(k, DisableKey(index))
  {
    var a := DisableKey(index);
    if Act(k, a).Some? {
      assert Records(Act(k, a).value) == Plan(Records(k), a).value;
    }
  }

  lemma EnableKeyRefines(k: Keyed, index: Option<int>)
    requires Valid(k)
    ensures Refines(k, EnableKey(index))
  {
    var a := EnableKey(index);
    if Act(k, a).Some? {
      assert Records(Act(k, a).value) == Plan(Records(k), a).value;
    }
  }

  lemma AnyAgrees(k: Keyed, status: int)
    ensures AnyKey(k, |k.keys|, status) == AnyRecord(Records(k), status)
  {
    if AnyKey(k, |k.keys|, status) {
      var i :| 0 <= i < |k.keys| && Status(k, i) == status;
      assert Records(k)[i].status == status;
    }
    if AnyRecord(Records(k), status) {
      var i :| 0 <= i < |k.keys| && Records(k)[i].status == status;
      assert Status(k, i) == status;
    }
  }

  lemma EnableAllRefines(k: Keyed)
    requires Valid(k)
    ensures Refines(k, EnableAll)
  {
    var k' := Act(k, EnableAll).value;
    forall i | 0 <= i < |k.keys|
      ensures RecordAt(k', i) == Enabled(RecordAt(k, i))
    {
    }
    assert Records(k') == MapRecords(Enabled, Records(k));
  }

  lemma {:induction false} DisabledAllEntry(k: Keyed, n: int, i: int)
    ensures Get(DisabledAll(k, n), i, ENABLED) == if 0 <= i < n && Status(k, i) == ENABLED then MANUALLY_DISABLED else Status(k, i)
    ensures i in DisabledAll(k, n) ==> i in k.info.status || 0 <= i < n
    decreases n
  {
    if n > 0 { DisabledAllEntry(k, n - 1, i); }
  }

  lemma DisableAllRefines(k: Keyed)
    requires Valid(k)
    ensures Refines(k, DisableAll)
  {
    AnyAgrees(k, ENABLED);
    if Act(k, DisableAll).Some? {
      var k' := Act(k, DisableAll).value;
      forall i | i in k'.info.status
        ensures 0 <= i < |k.keys|
      {
        DisabledAllEntry(k, |k.keys|, i);
      }
      forall i | 0 <= i < |k.keys|
        ensures RecordAt(k', i) == Disabled(RecordAt(k, i))
      {
        DisabledAllEntry(k, |k.keys|, i);
      }
      assert Records(k') == MapRecords(Disabled, Records(k));
    }
  }

  lemma DeleteKeyActionRefines(k: Keyed, index: Option<int>)
    requires Valid(k)
    ensures Refines(k, DeleteKey(index))
  {
    if Names(index, |k.keys|) {
      DeleteKeyRefines(k, index.value);
    }
  }

  lemma DeleteDisabledActionRefines(k: Keyed)
    requires Valid(k)
    ensures Refines(k, DeleteDisabled)
  {
    AnyAgrees(k, AUTO_DISABLED);
    DeleteDisabledRefines(k);
  }

  /** Every action on the sparse maps is the plain action on records, refusals included. */
  lemma ActRefinesPlan(k: Keyed, a: Action)
    requires Valid(k)
    ensures Refines(k, a)
  {
    match a
    case SetConfig(index, w, p) => SetConfigRefines(k, index, w, p);
    case DisableKey(index) => DisableKeyRefines(k, index);
    case EnableKey(index) => EnableKeyRefines(k, index);
    case EnableAll => EnableAllRefines(k);
    case DisableAll => DisableAllRefines(k);
    case DeleteKey(index) => DeleteKeyActionRefines(k, index);
    case DeleteDisabled => DeleteDisabledActionRefines(k);
  }

  // ---------- times and reasons belong to disabled keys ----------

  lemma RetainKeepsNoLeftovers(k: Keyed, ps: seq<int>, lively: int -> bool)
    requires NoLeftovers(k) && forall j :: 0 <= j < |ps| ==> 0 <= ps[j] < |k.keys|
    ensures NoLeftovers(Retain(k, ps, lively))
  {
    var k' := Retain(k, ps, lively);
    forall j | j in k'.info.time || j in k'.info.reason
      ensures Status(k', j) != ENABLED
    {
      ReindexEntry(k.info.time, ps, AtLively(lively), j);
      ReindexEntry(k.info.reason, ps, AtLively(lively), j);
      ReindexEntry(k.info.status, ps, Unlike(ENABLED), j);
    }
  }

  lemma DisableAllKeepsNoLeftovers(k: Keyed, n: int)
    requires NoLeftovers(k)
    ensures NoLeftovers(k.(info := k.info.(status := DisabledAll(k, n))))
  {
    forall i | i in k.info.time || i in k.info.reason
      ensures Get(DisabledAll(k, n), i, ENABLED) != ENABLED
    {
      DisabledAllEntry(k, n, i);
    }
  }

  /** Every action keeps the last part of well-formedness. */
  lemma ActKeepsNoLeftovers(k: Keyed, a: Action)
    requires NoLeftovers(k) && Act(k, a).Some?
    ensures NoLeftovers(Act(k, a).value)
  {
    match a
    case DisableAll => DisableAllKeepsNoLeftovers(k, k.info.size);
    case DeleteKey(index) => RetainKeepsNoLeftovers(k, Kept(|k.keys|, NotAt(index.value)), Everywhere());
    case DeleteDisabled => RetainKeepsNoLeftovers(k, Kept(|k.keys|, Alive(k)), Lively(k));
    case _ =>
  }

  /** On such a channel deleting the dead keys changes no surviving record. */
  lemma DeleteDisabledOnlySelects(k: Keyed)
    requires Valid(k) && NoLeftovers(k)
    ensures var rs := Records(k);
      Records(Retain(k, Kept(|k.keys|, Alive(k)), Lively(k))) == Select(rs, NotAuto(rs))
  {
    var rs := Records(k);
    DeleteDisabledRefines(k);
    SelectIsKept(rs, NotAuto(rs));
    forall j | 0 <= j < |Select(rs, NotAuto(rs))|
      ensures Surviving(Select(rs, NotAuto(rs))[j]) == Select(rs, NotAuto(rs))[j]
    {
      assert Select(rs, NotAuto(rs))[j] == RecordAt(k, Kept(|rs|, NotAuto(rs))[j]);
    }
    assert MapRecords(Surviving, Select(rs, NotAuto(rs))) == Select(rs, NotAuto(rs));
  }
}
