/**
Reconciliation of a channel's model list with the list its upstream reports:
detection of pending additions and removals, the staged lists kept in the
channel's settings, and the administrator's selective apply.
*/
module UpstreamSync {
  import opened Prelude
  import opened ModelNames
  import Text

  const REGEX_PREFIX := "regex:"

  datatype Settings = Settings(
    detected: seq<string>,     // UpstreamModelUpdateLastDetectedModels
    removed: seq<string>,      // UpstreamModelUpdateLastRemovedModels
    ignored: seq<string>,      // UpstreamModelUpdateIgnoredModels
    lastCheck: int,
    autoSync: bool)

  /** The stored row: model names joined by commas, and the settings. */
  datatype Row = Row(models: string, settings: Settings)

  /** What a detection looks at besides the row: the upstream's answer, the
      channel's model mapping, and regular-expression matching, which is false
      for a pattern that does not compile. */
  datatype Upstream = Upstream(models: seq<string>, mapping: map<string, string>, matches: (string, string) -> bool)
  {
    function Offered(): seq<string> { Normalize(models) }
  }

  datatype Request = Request(add: seq<string>, ignore: seq<string>, remove: seq<string>)

  function Local(row: Row): seq<string> {
    Normalize(Text.ReadList(row.models, ','))
  }

  // ---------- detection ----------

  predicate IsPattern(entry: string) {
    REGEX_PREFIX <= entry
  }

  /** An ignore entry hides a name it equals, or matches if it is a pattern. */
  predicate Hides(entry: string, name: string, u: Upstream) {
    if IsPattern(entry) then u.matches(Text.TrimSpace(entry[|REGEX_PREFIX|..]), name) else entry == name
  }

  predicate Hidden(ignored: seq<string>, name: string, u: Upstream) {
    exists i :: 0 <= i < |ignored| && Hides(ignored[i], name, u)
  }

  function AddTest(local: seq<string>, ignored: seq<string>, u: Upstream): string -> bool {
    m => m !in local && m !in u.mapping.Values && !Hidden(ignored, m, u)
  }

  function RemoveTest(u: Upstream): string -> bool {
    m => m !in u.mapping.Keys && m !in u.Offered()
  }

  function PendingAdd(local: seq<string>, ignored: seq<string>, u: Upstream): seq<string> {
    Filter(AddTest(Normalize(local), Normalize(ignored), u), u.Offered())
  }

  function PendingRemove(local: seq<string>, u: Upstream): seq<string> {
    Filter(RemoveTest(u), Normalize(local))
  }

  function DetectAdd(row: Row, u: Upstream): seq<string> {
    PendingAdd(Text.ReadList(row.models, ','), row.settings.ignored, u)
  }

  function DetectRemove(row: Row, u: Upstream): seq<string> {
    PendingRemove(Text.ReadList(row.models, ','), u)
  }

  /** The staged lists are what a new detection would compute. */
  predicate Fresh(row: Row, u: Upstream) {
    row.settings.detected == DetectAdd(row, u) && row.settings.removed == DetectRemove(row, u)
  }

  /** A check that reached the upstream and saved its result. */
  function Check(row: Row, u: Upstream, now: int, allowAutoApply: bool): Row {
    var add := DetectAdd(row, u);
    if allowAutoApply && row.settings.autoSync && |add| > 0 then
      var merged := Merge(Local(row), add);
      Row(if |merged| > |Local(row)| then Text.Join(merged, ',') else row.models,
          row.settings.(lastCheck := now, detected := [], removed := DetectRemove(row, u)))
    else
      row.(settings := row.settings.(lastCheck := now, detected := add, removed := DetectRemove(row, u)))
  }

  // ---------- selective apply ----------

  function SelectedAdd(row: Row, req: Request): seq<string> {
    Intersect(req.add, Normalize(row.settings.detected))
  }

  function SelectedIgnore(row: Row, req: Request): seq<string> {
    Intersect(req.ignore, Normalize(row.settings.detected))
  }

  function SelectedRemove(row: Row, req: Request): seq<string> {
    Subtract(Intersect(req.remove, Normalize(row.settings.removed)), SelectedAdd(row, req))
  }

  function NextModels(row: Row, req: Request): seq<string> {
    ApplySelected(Local(row), SelectedAdd(row, req), SelectedRemove(row, req))
  }

  function NextIgnored(row: Row, req: Request): seq<string> {
    var merged := Merge(row.settings.ignored, SelectedIgnore(row, req));
    if |SelectedAdd(row, req)| > 0 then Subtract(merged, SelectedAdd(row, req)) else merged
  }

  /** An apply whose result was saved. */
  function Apply(row: Row, req: Request, now: int): Row {
    Row(
      if Local(row) == NextModels(row, req) then row.models else Text.Join(NextModels(row, req), ','),
      row.settings.(
        detected := Subtract(Normalize(row.settings.detected), SelectedAdd(row, req) + SelectedIgnore(row, req)),
        removed := Subtract(Normalize(row.settings.removed), SelectedRemove(row, req)),
        ignored := NextIgnored(row, req),
        lastCheck := now))
  }

  // ---------- the model list after an apply ----------

  lemma IntersectNormal(base: seq<string>, allowed: seq<string>)
    ensures Normal(Intersect(base, allowed))
    ensures forall m :: m in Intersect(base, allowed) <==> m in Normalize(base) && m in Normalize(allowed)
  {
    FilterNormal(Within(Normalize(allowed)), Normalize(base));
  }

  lemma SubtractNormal(base: seq<string>, removed: seq<string>)
    ensures Normal(Subtract(base, removed))
    ensures forall m :: m in Subtract(base, removed) <==> m in Normalize(base) && m !in Normalize(removed)
  {
    FilterNormal(Outside(Normalize(removed)), Normalize(base));
  }

  // ---------- what an apply and a check do, name by name ----------

  /** Ticked to be added and staged as an addition. */
  predicate Adds(row: Row, req: Request, m: string) {
    m in Normalize(req.add) && m in Normalize(row.settings.detected)
  }

  /** Ticked to be removed, staged as a removal, and not added. */
  predicate Removes(row: Row, req: Request, m: string) {
    m in Normalize(req.remove) && m in Normalize(row.settings.removed) && !Adds(row, req, m)
  }

  predicate Ignores(row: Row, req: Request, m: string) {
    m in Normalize(req.ignore) && m in Normalize(row.settings.detected)
  }

  lemma SelectedMembers(row: Row, req: Request, m: string)
    ensures m in SelectedAdd(row, req) <==> Adds(row, req, m)
    ensures m in SelectedIgnore(row, req) <==> Ignores(row, req, m)
    ensures m in SelectedRemove(row, req) <==> Removes(row, req, m)
    ensures Normal(SelectedAdd(row, req)) && Normal(SelectedIgnore(row, req)) && Normal(SelectedRemove(row, req))
  {
    NormalizeNormal(Normalize(row.settings.detected));
    NormalizeNormal(Normalize(row.settings.removed));
    IntersectNormal(req.add, Normalize(row.settings.detected));
    IntersectNormal(req.ignore, Normalize(row.settings.detected));
    var ticked := Intersect(req.remove, Normalize(row.settings.removed));
    IntersectNormal(req.remove, Normalize(row.settings.removed));
    NormalizeNormal(ticked);
    NormalizeNormal(SelectedAdd(row, req));
    SubtractNormal(ticked, SelectedAdd(row, req));
  }

  lemma SelectedBothNormal(row: Row, req: Request)
    ensures Normalize(SelectedAdd(row, req) + SelectedIgnore(row, req)) == Uniq(SelectedAdd(row, req) + SelectedIgnore(row, req))
  {
    SelectedMembers(row, req, "");
    CleanOfClean(SelectedAdd(row, req) + SelectedIgnore(row, req));
  }

  /** After an apply a name is staged exactly if it was and no list of the request that can take it
      away ticks it; it is ignored exactly if it was or is ticked for that, and is not added. */
  lemma ApplyIsExact(row: Row, req: Request, now: int, m: string)
    ensures var next := Apply(row, req, now).settings;
      && (m in next.detected <==> m in Normalize(row.settings.detected) && m !in Normalize(req.add) && m !in Normalize(req.ignore))
      && (m in next.removed <==> m in Normalize(row.settings.removed)
                                 && (m in Normalize(req.remove) ==> m in Normalize(req.add) && m in Normalize(row.settings.detected)))
      && (m in next.ignored <==> (m in Normalize(row.settings.ignored) || Ignores(row, req, m)) && !Adds(row, req, m))
      && next.lastCheck == now && next.autoSync == row.settings.autoSync
  {
    SelectedMembers(row, req, m);
    SelectedBothNormal(row, req);
    NormalizeNormal(Normalize(row.settings.detected));
    NormalizeNormal(Normalize(row.settings.removed));
    NormalizeNormal(SelectedRemove(row, req));
    SubtractNormal(Normalize(row.settings.detected), SelectedAdd(row, req) + SelectedIgnore(row, req));
    SubtractNormal(Normalize(row.settings.removed), SelectedRemove(row, req));
    IgnoredAfterApply(row, req, m);
  }

  lemma IgnoredAfterApply(row: Row, req: Request, m: string)
    ensures m in NextIgnored(row, req) <==>
      (m in Normalize(row.settings.ignored) || Ignores(row, req, m)) && !Adds(row, req, m)
  {
    SelectedMembers(row, req, m);
    var merged := Merge(row.settings.ignored, SelectedIgnore(row, req));
    MergeNormal(row.settings.ignored, SelectedIgnore(row, req));
    NormalizeNormal(SelectedIgnore(row, req));
    NormalizeNormal(SelectedAdd(row, req));
    NormalizeNormal(merged);
    SubtractNormal(merged, SelectedAdd(row, req));
  }

  lemma NextModelsMembers(row: Row, req: Request, m: string)
    ensures m in NextModels(row, req) <==> (m in Local(row) && !Removes(row, req, m)) || Adds(row, req, m)
    ensures Normal(NextModels(row, req))
  {
    var add, remove := SelectedAdd(row, req), SelectedRemove(row, req);
    SelectedMembers(row, req, m);
    NormalizeNormal(add);
    NormalizeNormal(remove);
    NormalizeNormal(Local(row));
    MergeNormal(Local(row), add);
    NormalizeNormal(Merge(Local(row), add));
    SubtractNormal(remove, add);
    NormalizeNormal(Subtract(remove, add));
    SubtractNormal(Merge(Local(row), add), Subtract(remove, add));
  }

  /** A detection finds as an addition exactly an offered name that is not local, not the target of
      a mapping, and that no ignore entry equals or, after "regex:", matches; and as a removal
      exactly a local name that is no source of a mapping and not offered. */
  lemma DetectionIsExact(row: Row, u: Upstream, m: string)
    ensures m in DetectAdd(row, u) <==>
      && m in u.Offered() && m !in Local(row) && (forall s :: s in u.mapping ==> u.mapping[s] != m)
      && forall e :: e in Normalize(row.settings.ignored) ==>
           if "regex:" <= e then !u.matches(Text.TrimSpace(e[6..]), m) else e != m
    ensures m in DetectRemove(row, u) <==> m in Local(row) && m !in u.mapping && m !in u.Offered()
  {
    var ignored := Normalize(row.settings.ignored);
    if Hidden(ignored, m, u) {
      var i :| 0 <= i < |ignored| && Hides(ignored[i], m, u);
      assert ignored[i] in ignored;
    }
    forall e | e in ignored && Hides(e, m, u) ensures Hidden(ignored, m, u) {
      var i :| 0 <= i < |ignored| && ignored[i] == e;
    }
    assert m in u.mapping.Values <==> exists s :: s in u.mapping && u.mapping[s] == m;
  }

  /** A saved check stages what it finds and leaves the ignore list alone; with automatic adoption
      it stages no addition, and stores the local names followed by what it found. */
  lemma CheckIsExact(row: Row, u: Upstream, now: int, allowAutoApply: bool)
    ensures var row' := Check(row, u, now, allowAutoApply);
      && row'.settings.lastCheck == now && row'.settings.autoSync == row.settings.autoSync
      && row'.settings.ignored == row.settings.ignored && row'.settings.removed == DetectRemove(row, u)
      && (if allowAutoApply && row.settings.autoSync && DetectAdd(row, u) != []
          then row'.settings.detected == [] && row'.models == Text.Join(Local(row) + DetectAdd(row, u), ',')
          else row'.settings.detected == DetectAdd(row, u) && row'.models == row.models)
  {
    AdoptedListShape(row, u);
  }

  lemma {:induction false} CleanKeepsOut(names: seq<string>, sep: char)
    requires forall n :: n in names ==> sep !in n
    ensures forall m :: m in Clean(names) ==> sep !in m
    decreases |names|
  {
    if names != [] {
      assert names[0] in names;
      assert forall n :: n in names[1..] ==> n in names;
      Text.TrimResult(names[0], Text.IsSpace);
      CleanKeepsOut(names[1..], sep);
    }
  }

  /** A name read from the stored list never contains a comma. */
  lemma LocalHasNoComma(row: Row)
    ensures forall m :: m in Local(row) ==> ',' !in m
  {
    Text.SplitParts(Text.Trim(row.models, ','), ',');
    CleanKeepsOut(Text.ReadList(row.models, ','), ',');
  }

  /** Storing a normal list and reading it back returns it if no name contains a comma. */
  lemma StoredListReadsBack(names: seq<string>, settings: Settings)
    requires Normal(names) && forall m :: m in names ==> ',' !in m
    ensures Local(Row(Text.Join(names, ','), settings)) == names
  {
    if names != [] {
      assert Tidy(names[0]) && Tidy(names[|names| - 1]);
    }
    Text.ListRoundTrip(names, ',');
    NormalizeNormal(names);
  }

  lemma ApplySelectedDisjoint(origin: seq<string>, add: seq<string>, remove: seq<string>)
    requires Normal(origin) && Normal(add) && Normal(remove)
    requires forall m :: m in add ==> m !in origin && m !in remove
    ensures ApplySelected(origin, add, remove) == Filter(Outside(remove), origin) + add
    ensures Normal(ApplySelected(origin, add, remove))
  {
    NormalizeNormal(origin);
    NormalizeNormal(add);
    NormalizeNormal(remove);
    FilterAll(Outside(origin), add);
    assert Merge(origin, add) == origin + add;
    MergeNormal(origin, add);
    NormalizeNormal(origin + add);
    FilterAll(Outside(add), remove);
    assert Subtract(remove, add) == remove;
    FilterAppend(Outside(remove), origin, add);
    FilterAll(Outside(remove), add);
    SubtractNormal(origin + add, remove);
  }

  /** The selected lists sit where a fresh detection puts them: additions are offered and not
      local, removals are local and not offered. */
  lemma SelectionFacts(row: Row, u: Upstream, req: Request)
    requires Fresh(row, u)
    ensures Normal(row.settings.detected) && Normal(row.settings.removed)
    ensures Normalize(row.settings.detected) == row.settings.detected
    ensures Normalize(row.settings.removed) == row.settings.removed
    ensures Normal(SelectedAdd(row, req)) && Normal(SelectedIgnore(row, req)) && Normal(SelectedRemove(row, req))
    ensures forall m :: m in SelectedAdd(row, req) ==> m in u.Offered() && m !in Local(row)
    ensures forall m :: m in SelectedAdd(row, req) || m in SelectedIgnore(row, req) ==> m in row.settings.detected
    ensures forall m :: m in SelectedRemove(row, req) ==> m in Local(row) && m !in u.Offered()
  {
    FilterNormal(AddTest(Local(row), Normalize(row.settings.ignored), u), u.Offered());
    FilterNormal(RemoveTest(u), Local(row));
    NormalizeNormal(row.settings.detected);
    NormalizeNormal(row.settings.removed);
    IntersectNormal(req.add, row.settings.detected);
    IntersectNormal(req.ignore, row.settings.detected);
    IntersectNormal(req.remove, row.settings.removed);
    SubtractNormal(Intersect(req.remove, row.settings.removed), SelectedAdd(row, req));
    NormalizeNormal(Intersect(req.remove, row.settings.removed));
  }

  lemma NextModelsShape(row: Row, u: Upstream, req: Request)
    requires Fresh(row, u)
    ensures NextModels(row, req) == Filter(Outside(SelectedRemove(row, req)), Local(row)) + SelectedAdd(row, req)
    ensures Normal(NextModels(row, req))
  {
    SelectionFacts(row, u, req);
    ApplySelectedDisjoint(Local(row), SelectedAdd(row, req), SelectedRemove(row, req));
  }

  lemma NextIgnoredMembers(row: Row, u: Upstream, req: Request)
    requires Fresh(row, u)
    ensures Normal(NextIgnored(row, req))
    ensures forall e :: e in NextIgnored(row, req) <==>
      (e in Normalize(row.settings.ignored) || e in SelectedIgnore(row, req)) && e !in SelectedAdd(row, req)
  {
    SelectionFacts(row, u, req);
    var add, ign := SelectedAdd(row, req), SelectedIgnore(row, req);
    MergeNormal(row.settings.ignored, ign);
    NormalizeNormal(ign);
    NormalizeNormal(add);
    var merged := Merge(row.settings.ignored, ign);
    NormalizeNormal(merged);
    SubtractNormal(merged, add);
  }

  // ---------- staged lists against a new detection ----------

  lemma FilterAfterRemoval(keep: string -> bool, origin: seq<string>, add: seq<string>, rem: seq<string>)
    requires forall m :: m in add ==> !keep(m)
    ensures Filter(keep, Filter(Outside(rem), origin) + add) == Filter(Outside(rem), Filter(keep, origin))
  {
    var both := x => keep(x) && x !in rem;
    FilterAppend(keep, Filter(Outside(rem), origin), add);
    FilterAll(keep, add);
    FilterTwice(keep, Outside(rem), both, origin);
    FilterTwice(Outside(rem), keep, both, origin);
  }

  lemma FilterAfterChoice(before: string -> bool, after: string -> bool, chosen: seq<string>, offered: seq<string>)
    ensures Filter(after, offered) == Filter(Outside(chosen), Filter(before, offered))
      <==> forall m :: m in offered ==> (after(m) <==> before(m) && m !in chosen)
  {
    var both := x => before(x) && x !in chosen;
    FilterTwice(Outside(chosen), before, both, offered);
    FilterAgree(after, both, offered);
  }

  lemma RemoveSide(row: Row, u: Upstream, req: Request)
    requires Fresh(row, u)
    ensures Filter(RemoveTest(u), NextModels(row, req)) == Subtract(row.settings.removed, SelectedRemove(row, req))
  {
    SelectionFacts(row, u, req);
    NextModelsShape(row, u, req);
    NormalizeNormal(SelectedRemove(row, req));
    FilterAfterRemoval(RemoveTest(u), Local(row), SelectedAdd(row, req), SelectedRemove(row, req));
  }

  lemma ChosenMembers(row: Row, u: Upstream, req: Request, m: string)
    requires Fresh(row, u)
    ensures m in Normalize(SelectedAdd(row, req) + SelectedIgnore(row, req))
      <==> m in SelectedAdd(row, req) || m in SelectedIgnore(row, req)
  {
    SelectionFacts(row, u, req);
    CleanOfClean(SelectedAdd(row, req) + SelectedIgnore(row, req));
  }

  lemma DetectedMinusChosen(row: Row, u: Upstream, req: Request)
    requires Fresh(row, u)
    ensures var chosen := SelectedAdd(row, req) + SelectedIgnore(row, req);
      Subtract(row.settings.detected, chosen) ==
        Filter(Outside(Normalize(chosen)), Filter(AddTest(Local(row), Normalize(row.settings.ignored), u), u.Offered()))
  {
    FilterNormal(AddTest(Local(row), Normalize(row.settings.ignored), u), u.Offered());
    NormalizeNormal(row.settings.detected);
  }

  lemma EntryHides(ignored: seq<string>, e: string, name: string, u: Upstream)
    requires e in ignored && Hides(e, name, u)
    ensures Hidden(ignored, name, u)
  {
    var i :| 0 <= i < |ignored| && ignored[i] == e;
  }

  lemma HidingEntry(ignored: seq<string>, name: string, u: Upstream) returns (e: string)
    requires Hidden(ignored, name, u)
    ensures e in ignored && Hides(e, name, u)
  {
    var i :| 0 <= i < |ignored| && Hides(ignored[i], name, u);
    e := ignored[i];
  }

  lemma AdoptedListShape(row: Row, u: Upstream)
    ensures Normal(DetectAdd(row, u))
    ensures Merge(Local(row), DetectAdd(row, u)) == Local(row) + DetectAdd(row, u)
    ensures Normal(Local(row) + DetectAdd(row, u))
  {
    var local, add := Local(row), DetectAdd(row, u);
    FilterNormal(AddTest(local, Normalize(row.settings.ignored), u), u.Offered());
    NormalizeNormal(local);
    NormalizeNormal(add);
    MergeNormal(local, add);
    FilterAll(Outside(local), add);
  }

  lemma AdoptionIsFresh(row: Row, u: Upstream, now: int)
    requires row.settings.autoSync && |DetectAdd(row, u)| > 0
    requires forall m :: m in DetectAdd(row, u) ==> ',' !in m
    ensures Fresh(Check(row, u, now, true), u)
  {
    var local, add := Local(row), DetectAdd(row, u);
    AdoptedListShape(row, u);
    LocalHasNoComma(row);
    StoredListReadsBack(local + add, Check(row, u, now, true).settings);
    FilterAppend(RemoveTest(u), local, add);
    FilterAll(RemoveTest(u), add);
    FilterAll(AddTest(local + add, Normalize(row.settings.ignored), u), u.Offered());
  }

  /** A saved check stages what a new detection would compute. When it adopts the additions
      itself, that holds exactly when none of them contains a comma. */
  lemma CheckIsFreshIff(row: Row, u: Upstream, now: int, allowAutoApply: bool)
    ensures Fresh(Check(row, u, now, allowAutoApply), u)
      <==> !(allowAutoApply && row.settings.autoSync) || forall m :: m in DetectAdd(row, u) ==> ',' !in m
  {
    if allowAutoApply && row.settings.autoSync && |DetectAdd(row, u)| > 0 {
      if forall m :: m in DetectAdd(row, u) ==> ',' !in m {
        AdoptionIsFresh(row, u, now);
      } else {
        var row' := Check(row, u, now, allowAutoApply);
        var m :| m in DetectAdd(row, u) && ',' in m;
        LocalHasNoComma(row');
        assert m in DetectAdd(row', u);
      }
    }
  }

  lemma FirstDetectionIsFresh(u: Upstream)
    requires Normal(u.models) && u.mapping == map[]
    ensures Fresh(Row("", Settings(u.models, [], [], 0, false)), u)
  {
    NormalizeNormal(u.models);
    FilterAll(AddTest([], [], u), u.models);
  }

  lemma PairIsNormal(p: string, m: string)
    requires Tidy(p) && Tidy(m) && p != m
    ensures Normal([p, m]) && Normalize([p, m]) == [p, m]
  {
    var pair := [p, m];
    assert forall x :: x in pair ==> x == p || x == m;
    NormalizeNormal(pair);
  }

  // ---------- the stored channel ----------

  method ToSet(names: seq<string>) returns (s: set<string>)
    ensures forall m :: m in s <==> m in names
  {
    s := {};
    for i := 0 to |names|
      invariant forall m :: m in s <==> m in names[..i]
    {
      assert names[..i + 1] == names[..i] + [names[i]];
      s := s + {names[i]};
    }
    assert names[..|names|] == names;
  }

  method RedirectSets(mapping: map<string, string>) returns (sources: set<string>, targets: set<string>)
    ensures sources == mapping.Keys
    ensures targets == mapping.Values
  {
    sources, targets := {}, {};
    var todo := mapping.Keys;
    while todo != {}
      invariant sources == mapping.Keys - todo && todo <= mapping.Keys
      invariant targets == set k | k in sources :: mapping[k]
      decreases |todo|
    {
      var k :| k in todo;
      sources, targets, todo := sources + {k}, targets + {mapping[k]}, todo - {k};
    }
    assert targets == mapping.Values;
  }

  method CollectPending(local: seq<string>, ignored: seq<string>, u: Upstream) returns (add: seq<string>, remove: seq<string>)
    ensures add == PendingAdd(local, ignored, u)
    ensures remove == PendingRemove(local, u)
  {
    var localModels, upstreamModels, hidden := Normalize(local), Normalize(u.models), Normalize(ignored);
    var localSet := ToSet(localModels);
    var upstreamSet := ToSet(upstreamModels);
    var sources, targets := RedirectSets(u.mapping);
    var covered := localSet + targets;
    var toAdd := m => m !in covered && !Hidden(hidden, m, u);
    var toRemove := m => m !in sources && m !in upstreamSet;
    add := Filter(toAdd, upstreamModels);
    remove := Filter(toRemove, localModels);
    FilterAgree(toAdd, AddTest(localModels, hidden, u), upstreamModels);
    FilterAgree(toRemove, RemoveTest(u), localModels);
    FilterNormal(toAdd, upstreamModels);
    FilterNormal(toRemove, localModels);
    NormalizeNormal(add);
    NormalizeNormal(remove);
    add, remove := Normalize(add), Normalize(remove);
  }

  class Channel {
    var row: Row
    const mapping: map<string, string>

    constructor (row: Row, mapping: map<string, string>)
      ensures this.row == row && this.mapping == mapping
    {
      this.row := row;
      this.mapping := mapping;
    }

    /** `fetched` is the upstream's answer, if any; `saved` says whether the row could be written. */
    method CheckAndPersist(
      fetched: Option<seq<string>>, matches: (string, string) -> bool,
      now: int, force: bool, minInterval: int, allowAutoApply: bool, saved: bool)
      returns (modelsChanged: bool, autoAdded: int, failed: bool)
      modifies this
      ensures var tooSoon := !force && old(row).settings.lastCheck > 0 && now - old(row).settings.lastCheck < minInterval;
        && failed == (!tooSoon && !(fetched.Some? && saved))
        && (tooSoon || !saved ==> row == old(row))
        && (!tooSoon && saved && fetched.None? ==> row == old(row).(settings := old(row).settings.(lastCheck := now)))
        && (!tooSoon && saved && fetched.Some? ==>
              && row == Check(old(row), Upstream(fetched.value, mapping, matches), now, allowAutoApply)
              && modelsChanged == (allowAutoApply && old(row).settings.autoSync
                                   && DetectAdd(old(row), Upstream(fetched.value, mapping, matches)) != [])
              && autoAdded == if modelsChanged then |DetectAdd(old(row), Upstream(fetched.value, mapping, matches))| else 0)
    {
      modelsChanged, autoAdded, failed := false, 0, false;
      if !force && row.settings.lastCheck > 0 && now - row.settings.lastCheck < minInterval {
        return;
      }
      if fetched.None? {
        failed := true;
        if saved {
          row := row.(settings := row.settings.(lastCheck := now));
        }
        return;
      }
      var u := Upstream(fetched.value, mapping, matches);
      var add, remove := CollectPending(Text.ReadList(row.models, ','), row.settings.ignored, u);
      AdoptedListShape(row, u);
      var next := row.(settings := row.settings.(lastCheck := now, removed := remove));
      if allowAutoApply && row.settings.autoSync && |add| > 0 {
        var origin := Normalize(Text.ReadList(row.models, ','));
        var merged := MergeModelNames(origin, add);
        if |merged| > |origin| {
          next := next.(models := Text.Join(merged, ','));
          autoAdded := |merged| - |origin|;
          modelsChanged := true;
        }
        next := next.(settings := next.settings.(detected := []));
      } else {
        next := next.(settings := next.settings.(detected := add));
      }
      if saved {
        row := next;
      } else {
        modelsChanged, failed := false, true;
      }
    }

    method ApplyUpdates(req: Request, now: int, saved: bool)
      returns (added: seq<string>, removed: seq<string>, modelsChanged: bool, failed: bool)
      modifies this
      ensures failed == !saved
      ensures row == if saved then Apply(old(row), req, now) else old(row)
      ensures saved ==> added == SelectedAdd(old(row), req) && removed == SelectedRemove(old(row), req)
      ensures saved ==> forall m :: m in added <==> m in Normalize(req.add) && m in Normalize(old(row).settings.detected)
      ensures saved ==> forall m :: m in removed <==>
        m in Normalize(req.remove) && m in Normalize(old(row).settings.removed) && m !in added
      ensures saved ==> modelsChanged == (NextModels(old(row), req) != Local(old(row)))
    {
      var pendingAdd, pendingRemove := Normalize(row.settings.detected), Normalize(row.settings.removed);
      added := Intersect(req.add, pendingAdd);
      var ignore := Intersect(req.ignore, pendingAdd);
      removed := Subtract(Intersect(req.remove, pendingRemove), added);
      var origin := Normalize(Text.ReadList(row.models, ','));
      var nextModels := ApplySelected(origin, added, removed);
      modelsChanged := origin != nextModels;
      var ignored := MergeModelNames(row.settings.ignored, ignore);
      if |added| > 0 {
        ignored := Subtract(ignored, added);
      }
      var next := Row(
        if modelsChanged then Text.Join(nextModels, ',') else row.models,
        row.settings.(
          ignored := ignored,
          detected := Subtract(pendingAdd, added + ignore),
          removed := Subtract(pendingRemove, removed),
          lastCheck := now));
      failed := !saved;
      if saved {
        forall m ensures m in added <==> Adds(row, req, m) ensures m in removed <==> Removes(row, req, m) {
          SelectedMembers(row, req, m);
        }
        row := next;
      } else {
        added, removed, modelsChanged := [], [], false;
      }
    }
  }
}