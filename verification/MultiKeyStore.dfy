/**
The saved row of a multi-key channel. The key list is stored as one text, and
saving re-reads that text, so a deletion may not come back as it was meant.
*/
module MultiKeyStore {
  import opened Prelude
  import opened MultiKeys
  import Text

  datatype Row = Row(text: string, info: Info)

  /** The JSON decoder: the raw elements of an array, or None for anything else. */
  type Json = string -> Option<seq<string>>

  predicate IsJsonArray(text: string, json: Json) {
    var t := Text.TrimSpace(text);
    t != "" && t[0] == '[' && json(t).Some?
  }

  /** Channel.GetKeys */
  function ReadKeys(text: string, json: Json): seq<string> {
    if IsJsonArray(text, json) then json(Text.TrimSpace(text)).value else Text.ReadList(text, '\n')
  }

  /** The key count computed by Channel.Update, which falls back to lines for an empty array. */
  function CountKeys(text: string, json: Json): int {
    if IsJsonArray(text, json) && json(Text.TrimSpace(text)).value != []
    then |json(Text.TrimSpace(text)).value| else |Text.ReadList(text, '\n')|
  }

  function Load(row: Row, json: Json): Keyed {
    Keyed(ReadKeys(row.text, json), row.info)
  }

  /** Channel.Update: an empty text is neither counted nor written, the old one stays. */
  function Save(row: Row, text: string, info: Info, json: Json): Row {
    var stored := if text == "" then row.text else text;
    var size := CountKeys(stored, json);
    Row(stored, info.(size := size, status := map i | i in info.status && i < size :: info.status[i]))
  }

  predicate Deletes(a: Action) {
    a.DeleteKey? || a.DeleteDisabled?
  }

  /** One request whose save succeeds; a refused request saves nothing. */
  function StepRow(row: Row, a: Action, json: Json): Row {
    match Act(Load(row, json), a)
    case None => row
    case Some(k) => Save(row, if Deletes(a) then Text.Join(k.keys, '\n') else row.text, k.info, json)
  }

  predicate WellFormed(row: Row, json: Json) {
    Valid(Load(row, json))
  }

  /** The text is a JSON array without elements, which is counted as lines. */
  predicate EmptyArray(row: Row, json: Json) {
    IsJsonArray(row.text, json) && json(Text.TrimSpace(row.text)).value == []
  }

  /** What the plain action makes of the records; a refused one changes nothing. */
  function Planned(rs: seq<Record>, a: Action): seq<Record> {
    match Plan(rs, a)
    case None => rs
    case Some(rs') => rs'
  }

  // ---------- one request ----------

  lemma SavedAsIs(row: Row, text: string, k: Keyed, json: Json)
    requires Valid(k) && text != "" && ReadKeys(text, json) == k.keys && k.keys != []
    ensures Load(Save(row, text, k.info, json), json) == k
  {
    assert (map i | i in k.info.status && i < |k.keys| :: k.info.status[i]) == k.info.status;
  }

  lemma PlannedRecords(k: Keyed, a: Action)
    requires Valid(k)
    ensures Act(k, a).None? ==> Planned(Records(k), a) == Records(k)
    ensures Act(k, a).Some? ==> Plan(Records(k), a) == Some(Records(Act(k, a).value)) && Valid(Act(k, a).value)
  {
    ActRefinesPlan(k, a);
  }

  /** Saving keeps everything but the statuses of positions behind the last key, and the old text
      if the new one is empty. */
  lemma SaveIsExact(row: Row, text: string, info: Info, json: Json)
    ensures var saved := Save(row, text, info, json);
      && saved.text == (if text != "" then text else row.text)
      && saved.info.time == info.time && saved.info.reason == info.reason
      && saved.info.weight == info.weight && saved.info.priority == info.priority
      && (Load(saved, json).keys != [] ==> saved.info.size == |Load(saved, json).keys|)
      && (forall i :: i in saved.info.status <==> i in info.status && i < saved.info.size)
      && (forall i :: i in saved.info.status ==> saved.info.status[i] == info.status[i])
  {
  }

  /** On a row whose text is an empty array, nothing but enabling all keys gets past the checks. */
  lemma EmptyArrayActs(row: Row, a: Action, json: Json)
    requires WellFormed(row, json) && EmptyArray(row, json) && Act(Load(row, json), a).Some?
    ensures a.EnableAll?
  {
  }

  /** Then the saved size counts lines of the text that are no keys. */
  lemma EmptyArrayIsMiscounted(row: Row, json: Json)
    requires WellFormed(row, json) && EmptyArray(row, json)
    ensures Load(StepRow(row, EnableAll, json), json).keys == []
    ensures Load(StepRow(row, EnableAll, json), json).info.size == |Text.ReadList(row.text, '\n')| > 0
  {
    assert Text.TrimSpace("") == "";
  }

  /** Every action but the two deletions is saved exactly. The row stays well-formed unless its
      text is an empty array, where it does not. */
  lemma EditIsExact(row: Row, a: Action, json: Json)
    requires WellFormed(row, json) && !Deletes(a)
    ensures Records(Load(StepRow(row, a, json), json)) == Planned(Records(Load(row, json)), a)
    ensures WellFormed(StepRow(row, a, json), json) <==> Act(Load(row, json), a).None? || !EmptyArray(row, json)
    ensures Act(Load(row, json), a).Some? && !EmptyArray(row, json) ==>
      Load(StepRow(row, a, json), json) == Act(Load(row, json), a).value
  {
    var k := Load(row, json);
    PlannedRecords(k, a);
    if Act(k, a).Some? {
      var k' := Act(k, a).value;
      if EmptyArray(row, json) {
        EmptyArrayActs(row, a, json);
        EmptyArrayIsMiscounted(row, json);
      } else {
        assert k'.keys == k.keys && CountKeys(row.text, json) == |k.keys|;
        assert (map i | i in k'.info.status && i < |k.keys| :: k'.info.status[i]) == k'.info.status;
        assert Load(StepRow(row, a, json), json) == k';
      }
    }
  }

  /** The remaining keys survive being joined to lines and read again: as an array if the text
      happens to be one, and as lines otherwise. */
  predicate Rereadable(keys: seq<string>, json: Json) {
    keys != [] &&
    var text := Text.Join(keys, '\n');
    if IsJsonArray(text, json) then json(Text.TrimSpace(text)).value == keys
    else keys[0] != "" && keys[|keys| - 1] != "" && forall p :: p in keys ==> '\n' !in p
  }

  lemma RereadableReads(keys: seq<string>, json: Json)
    requires keys != []
    ensures Rereadable(keys, json) <==> Text.Join(keys, '\n') != "" && ReadKeys(Text.Join(keys, '\n'), json) == keys
  {
    Text.ListRoundTrip(keys, '\n');
  }

  lemma FewerKeys(k: Keyed, a: Action)
    requires Valid(k) && Deletes(a) && Act(k, a).Some?
    ensures |Act(k, a).value.keys| < |k.keys|
  {
    if a.DeleteKey? {
      DeleteKeyRefines(k, a.index.value);
    } else {
      var i :| 0 <= i < |k.keys| && Status(k, i) == AUTO_DISABLED;
      KeptMisses(|k.keys|, Alive(k), i);
    }
  }

  lemma {:induction false} KeptMisses(n: nat, keep: int -> bool, i: nat)
    requires i < n && !keep(i)
    ensures |Kept(n, keep)| < n
    decreases n
  {
    if i < n - 1 {
      KeptMisses(n - 1, keep, i);
    } else {
      KeptAtMost(n - 1, keep);
    }
  }

  lemma {:induction false} KeptAtMost(n: nat, keep: int -> bool)
    ensures |Kept(n, keep)| <= n
  {
    if n > 0 { KeptAtMost(n - 1, keep); }
  }

  lemma RecordsDetermineKeys(k: Keyed, k': Keyed)
    requires Records(k) == Records(k')
    ensures k.keys == k'.keys
  {
    assert forall i :: 0 <= i < |k.keys| ==> Records(k)[i].key == k.keys[i] && Records(k')[i].key == k'.keys[i];
  }

  /** A deletion is saved as planned exactly when keys remain and survive being joined and read:
      no line breaks in them and no empty key at either end, unless the text is an array. */
  lemma DeletionIsExactIff(row: Row, a: Action, json: Json)
    requires WellFormed(row, json) && Deletes(a) && Act(Load(row, json), a).Some?
    ensures Some(Records(Load(StepRow(row, a, json), json))) == Plan(Records(Load(row, json)), a)
      <==> Rereadable(Act(Load(row, json), a).value.keys, json)
    ensures Rereadable(Act(Load(row, json), a).value.keys, json) ==>
      WellFormed(StepRow(row, a, json), json) && Load(StepRow(row, a, json), json) == Act(Load(row, json), a).value
  {
    var k := Load(row, json);
    var k' := Act(k, a).value;
    var text := Text.Join(k'.keys, '\n');
    var after := Load(StepRow(row, a, json), json);
    PlannedRecords(k, a);
    FewerKeys(k, a);
    if k'.keys != [] {
      RereadableReads(k'.keys, json);
    }
    if Rereadable(k'.keys, json) {
      SavedAsIs(row, text, k', json);
    } else if Records(after) == Records(k') {
      RecordsDetermineKeys(after, k');
    }
  }

  function Blank(r: Record): Record {
    Record(r.key, ENABLED, None, None, 0, 0)
  }

  predicate AllAuto(rs: seq<Record>) {
    forall i :: 0 <= i < |rs| ==> rs[i].status == AUTO_DISABLED
  }

  lemma {:induction false} KeptNone(n: nat, keep: int -> bool)
    requires forall i :: 0 <= i < n ==> !keep(i)
    ensures Kept(n, keep) == []
  {
    if n > 0 { KeptNone(n - 1, keep); }
  }

  const NOTHING := Keyed([], Info(0, map[], map[], map[], map[], map[]))

  lemma RetainNothing(k: Keyed, lively: int -> bool)
    ensures Retain(k, [], lively) == NOTHING
  {
  }

  lemma NothingSurvives(k: Keyed)
    requires k.keys != [] && forall i :: 0 <= i < |k.keys| ==> Status(k, i) == AUTO_DISABLED
    ensures AnyKey(k, |k.keys|, AUTO_DISABLED)
    ensures Kept(|k.keys|, Alive(k)) == []
  {
    assert Status(k, 0) == AUTO_DISABLED;
    KeptNone(|k.keys|, Alive(k));
  }

  lemma DeleteAllLeavesNothing(k: Keyed)
    requires AnyKey(k, |k.keys|, AUTO_DISABLED) && Kept(|k.keys|, Alive(k)) == []
    ensures Act(k, DeleteDisabled) == Some(NOTHING)
  {
    RetainNothing(k, Lively(k));
  }

  lemma SavingNothingKeepsKeys(row: Row, json: Json)
    requires WellFormed(row, json) && Load(row, json).keys != [] && Act(Load(row, json), DeleteDisabled) == Some(NOTHING)
    ensures var n := |Load(row, json).keys|;
      StepRow(row, DeleteDisabled, json) == Row(row.text, Info(n, map[], map[], map[], map[], map[]))
  {
  }

  /** Deleting the automatically disabled keys of a channel that has no others brings every
      one of them back enabled, with its configuration wiped. */
  lemma DeletingAllKeysRevivesThem(row: Row, json: Json)
    requires WellFormed(row, json) && Load(row, json).keys != [] && AllAuto(Records(Load(row, json)))
    ensures WellFormed(StepRow(row, DeleteDisabled, json), json)
    ensures Plan(Records(Load(row, json)), DeleteDisabled) == Some([])
    ensures Records(Load(StepRow(row, DeleteDisabled, json), json)) == MapRecords(Blank, Records(Load(row, json)))
  {
    var k := Load(row, json);
    assert forall i :: 0 <= i < |k.keys| ==> Records(k)[i].status == Status(k, i);
    NothingSurvives(k);
    DeleteAllLeavesNothing(k);
    PlannedRecords(k, DeleteDisabled);
    assert Records(NOTHING) == [];
    SavingNothingKeepsKeys(row, json);
    assert Records(Load(StepRow(row, DeleteDisabled, json), json)) == MapRecords(Blank, Records(k));
  }

  // ---------- whole runs ----------

  function RunPlan(rs: seq<Record>, actions: seq<Action>): seq<Record>
    decreases |actions|
  {
    if actions == [] then rs else RunPlan(Planned(rs, actions[0]), actions[1..])
  }

  function RunRow(row: Row, actions: seq<Action>, json: Json): Row
    decreases |actions|
  {
    if actions == [] then row else RunRow(StepRow(row, actions[0], json), actions[1..], json)
  }

  /** The request leaves a well-formed row that shows the plain action. */
  predicate StepExact(row: Row, a: Action, json: Json) {
    && WellFormed(StepRow(row, a, json), json)
    && Records(Load(StepRow(row, a, json), json)) == Planned(Records(Load(row, json)), a)
  }

  /** The request is refused, or it works on a text that is no empty array and, if it deletes,
      leaves keys that can be read again. */
  predicate Safe(row: Row, a: Action, json: Json) {
    match Act(Load(row, json), a)
    case None => true
    case Some(k) => !EmptyArray(row, json) && (Deletes(a) ==> Rereadable(k.keys, json))
  }

  /** A request on any well-formed row shows the plain action and leaves a well-formed row exactly
      if it is safe. */
  lemma StepIsExactIff(row: Row, a: Action, json: Json)
    requires WellFormed(row, json)
    ensures StepExact(row, a, json) <==> Safe(row, a, json)
  {
    var k := Load(row, json);
    PlannedRecords(k, a);
    if Act(k, a).Some? {
      if Deletes(a) {
        FewerKeys(k, a);
        DeletionIsExactIff(row, a, json);
      } else {
        EditIsExact(row, a, json);
      }
    }
  }

  /** A safe request keeps disabled times and reasons with disabled keys. */
  lemma StepKeepsNoLeftovers(row: Row, a: Action, json: Json)
    requires WellFormed(row, json) && Safe(row, a, json) && NoLeftovers(Load(row, json))
    ensures NoLeftovers(Load(StepRow(row, a, json), json))
  {
    var k := Load(row, json);
    if Act(k, a).Some? {
      ActKeepsNoLeftovers(k, a);
      if Deletes(a) { DeletionIsExactIff(row, a, json); } else { EditIsExact(row, a, json); }
    }
  }

  predicate SafeRun(row: Row, actions: seq<Action>, json: Json)
    decreases |actions|
  {
    actions == [] || (Safe(row, actions[0], json) && SafeRun(StepRow(row, actions[0], json), actions[1..], json))
  }

  /** Every request of the run shows the plain action. */
  predicate ExactThroughout(row: Row, actions: seq<Action>, json: Json)
    decreases |actions|
  {
    actions == [] || (StepExact(row, actions[0], json) && ExactThroughout(StepRow(row, actions[0], json), actions[1..], json))
  }

  /** A run from any well-formed row follows the plain actions throughout exactly if each request
      is safe; then the saved channel shows the run of the plain actions and is well-formed. */
  lemma {:induction false} RunIsExactIff(row: Row, actions: seq<Action>, json: Json)
    requires WellFormed(row, json)
    ensures ExactThroughout(row, actions, json) <==> SafeRun(row, actions, json)
    ensures SafeRun(row, actions, json) ==>
      && WellFormed(RunRow(row, actions, json), json)
      && Records(Load(RunRow(row, actions, json), json)) == RunPlan(Records(Load(row, json)), actions)
      && (NoLeftovers(Load(row, json)) ==> NoLeftovers(Load(RunRow(row, actions, json), json)))
    decreases |actions|
  {
    if actions != [] {
      StepIsExactIff(row, actions[0], json);
      if Safe(row, actions[0], json) {
        if NoLeftovers(Load(row, json)) { StepKeepsNoLeftovers(row, actions[0], json); }
        RunIsExactIff(StepRow(row, actions[0], json), actions[1..], json);
      }
    }
  }

  // ---------- keys as vendors issue them ----------

  /** One line that starts neither with a blank nor like a JSON array. */
  predicate PlainKey(key: string) {
    key != "" && '\n' !in key && key[0] != '[' && !Text.IsSpace(key[0])
  }

  predicate AllPlain(keys: seq<string>) {
    forall p :: p in keys ==> PlainKey(p)
  }

  lemma {:induction false} TrimRightKeepsStart(s: string, cut: char -> bool)
    requires s != "" && !cut(s[0])
    ensures Text.TrimRight(s, cut) != "" && Text.TrimRight(s, cut)[0] == s[0]
    decreases |s|
  {
    if cut(s[|s| - 1]) { TrimRightKeepsStart(s[..|s| - 1], cut); }
  }

  lemma PlainIsRereadable(keys: seq<string>, json: Json)
    requires AllPlain(keys) && keys != []
    ensures Rereadable(keys, json)
  {
    assert PlainKey(keys[0]) && PlainKey(keys[|keys| - 1]);
    Text.JoinEnds(keys, '\n');
    TrimRightKeepsStart(Text.Join(keys, '\n'), Text.IsSpace);
  }

  lemma KeysStayPlain(k: Keyed, a: Action)
    requires AllPlain(k.keys) && Act(k, a).Some?
    ensures AllPlain(Act(k, a).value.keys)
  {
    if Deletes(a) {
      var ps := Kept(|k.keys|, if a.DeleteKey? then NotAt(a.index.value) else Alive(k));
      assert Act(k, a).value.keys == KeysAt(k.keys, ps);
    }
  }

  /** All keys are automatically disabled, and the request deletes such keys. */
  predicate Empties(row: Row, a: Action, json: Json) {
    a.DeleteDisabled? && Load(row, json).keys != [] && AllAuto(Records(Load(row, json)))
  }

  predicate NeverEmptied(row: Row, actions: seq<Action>, json: Json)
    decreases |actions|
  {
    actions == [] || (!Empties(row, actions[0], json) && NeverEmptied(StepRow(row, actions[0], json), actions[1..], json))
  }

  lemma {:induction false} KeptEmpty(n: nat, keep: int -> bool, i: nat)
    requires i < n && Kept(n, keep) == []
    ensures !keep(i)
    decreases n
  {
    if i < n - 1 { KeptEmpty(n - 1, keep, i); }
  }

  /** A deletion leaves no key exactly if it empties the channel. */
  lemma EmptiesIff(row: Row, a: Action, json: Json)
    requires WellFormed(row, json) && Deletes(a) && Act(Load(row, json), a).Some?
    ensures Act(Load(row, json), a).value.keys == [] <==> Empties(row, a, json)
  {
    var k := Load(row, json);
    FewerKeys(k, a);
    if a.DeleteDisabled? && Act(k, a).value.keys == [] {
      forall i | 0 <= i < |k.keys| ensures Records(k)[i].status == AUTO_DISABLED {
        KeptEmpty(|k.keys|, Alive(k), i);
      }
    }
    if Empties(row, a, json) {
      assert forall i :: 0 <= i < |k.keys| ==> Records(k)[i].status == Status(k, i);
      NothingSurvives(k);
    }
  }

  /** An emptying request is not refused. */
  lemma EmptyingActs(row: Row, a: Action, json: Json)
    requires Empties(row, a, json)
    ensures Act(Load(row, json), a).Some?
  {
    var k := Load(row, json);
    assert Records(k)[0].status == Status(k, 0);
    assert AnyKey(k, |k.keys|, AUTO_DISABLED);
  }

  predicate PlainRow(row: Row, json: Json) {
    WellFormed(row, json) && !EmptyArray(row, json) && AllPlain(Load(row, json).keys)
  }

  lemma PlainStep(row: Row, a: Action, json: Json)
    requires PlainRow(row, json)
    ensures Safe(row, a, json) <==> !Empties(row, a, json)
    ensures Safe(row, a, json) ==> PlainRow(StepRow(row, a, json), json)
  {
    var k := Load(row, json);
    if Empties(row, a, json) { EmptyingActs(row, a, json); }
    if Act(k, a).Some? {
      KeysStayPlain(k, a);
      if Deletes(a) {
        EmptiesIff(row, a, json);
        if Act(k, a).value.keys != [] { PlainIsRereadable(Act(k, a).value.keys, json); }
        DeletionIsExactIff(row, a, json);
      } else {
        EditIsExact(row, a, json);
      }
    }
  }

  /** With such keys a run is safe exactly if no request deletes the last keys of a channel whose
      keys are all automatically disabled; `DeletingAllKeysRevivesThem` shows what happens then. */
  lemma {:induction false} PlainKeysAreSafeIff(row: Row, actions: seq<Action>, json: Json)
    requires PlainRow(row, json)
    ensures SafeRun(row, actions, json) <==> NeverEmptied(row, actions, json)
    decreases |actions|
  {
    if actions != [] {
      PlainStep(row, actions[0], json);
      if Safe(row, actions[0], json) { PlainKeysAreSafeIff(StepRow(row, actions[0], json), actions[1..], json); }
    }
  }
}
