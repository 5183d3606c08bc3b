/**
The comparison of local prices with the prices of upstream channels: a fill
pass over every model and field, then passes that prune channels without any
real difference and items without any left.
*/
module PriceDiff {
  import opened Prelude

  const EPSILON := 0.000000001

  predicate NearlyEqual(a: real, b: real) {
    if a > b then a - b < EPSILON else b - a < EPSILON
  }

  /** A JSON scalar other than null; null is the None of an Option<Value>. */
  datatype Value = Num(x: real) | Int(n: int) | Str(s: string) | Bool(b: bool)

  predicate ValuesEqual(a: Option<Value>, b: Option<Value>) {
    if a.Some? && a.value.Num? && b.Some? && b.value.Num? then NearlyEqual(a.value.x, b.value.x) else a == b
  }

  const FIELDS := ["model_ratio", "completion_ratio", "cache_ratio", "create_cache_ratio", "image_ratio",
                   "audio_ratio", "audio_completion_ratio", "model_price", "billing_mode", "billing_expr"]

  predicate IsNumericField(field: string) {
    field in FIELDS && field != "billing_mode" && field != "billing_expr"
  }

  function AsFloat(v: Option<Value>): Option<real> {
    match v
    case Some(Num(x)) => Some(x)
    case Some(Int(n)) => Some(n as real)
    case _ => None
  }

  function NormalizeValue(field: string, v: Option<Value>): Option<Value> {
    if IsNumericField(field) && AsFloat(v).Some? then Some(Num(AsFloat(v).value)) else v
  }

  /** Prices by field and model. */
  type Table = map<string, map<string, Option<Value>>>

  datatype Channel = Channel(name: string, data: Table)

  datatype Item = Item(current: Option<Value>, upstreams: map<string, Option<Value>>, confidence: map<string, bool>)

  /** The marker written for "equal to local" (or "absent on both sides"). */
  const SAME: Option<Value> := Some(Str("same"))

  function Column(data: Table, field: string): map<string, Option<Value>> {
    if field in data then data[field] else map[]
  }

  function Lookup(data: Table, field: string, model: string): Option<Option<Value>> {
    if model in Column(data, field) then Some(NormalizeValue(field, Column(data, field)[model])) else None
  }

  function LocalValue(local: Table, field: string, model: string): Option<Value> {
    match Lookup(local, field, model)
    case None => None
    case Some(v) => v
  }

  /** The upstream has a value that is not the local one. */
  predicate Differs(current: Option<Value>, up: Option<Option<Value>>) {
    up.Some? && !ValuesEqual(current, up.value)
  }

  /** What the item records for one channel. */
  function CellOf(current: Option<Value>, up: Option<Option<Value>>): Option<Value> {
    if Differs(current, up) then up.value
    else if up.Some? || current.None? then SAME
    else None
  }

  /** Interfaces that answer every model with ratio 37.5 and completion ratio 1 are not trusted. */
  predicate Trusted(data: Table, model: string) {
    var m, c := Lookup(data, "model_ratio", model), Lookup(data, "completion_ratio", model);
    !(m.Some? && c.Some? && AsFloat(m.value).Some? && AsFloat(c.value).Some?
      && NearlyEqual(AsFloat(m.value).value, 37.5) && NearlyEqual(AsFloat(c.value).value, 1.0))
  }

  // ---------- the fill pass ----------

  /** The channel is a reason to list the item: it differs from the local value, or there is no
      local value and it has one. */
  predicate Counts(local: Table, channel: Channel, field: string, model: string) {
    var current, up := LocalValue(local, field, model), Lookup(channel.data, field, model);
    if current.Some? then Differs(current, up) else up.Some?
  }

  predicate Included(local: Table, channels: seq<Channel>, n: nat, field: string, model: string)
    requires n <= |channels|
  {
    exists i :: 0 <= i < n && Counts(local, channels[i], field, model)
  }

  lemma IncludedStep(local: Table, channels: seq<Channel>, n: nat, field: string, model: string)
    requires n < |channels|
    ensures Included(local, channels, n + 1, field, model)
      <==> Included(local, channels, n, field, model) || Counts(local, channels[n], field, model)
  {
  }

  function Upstreams(current: Option<Value>, channels: seq<Channel>, n: nat, field: string, model: string): map<string, Option<Value>>
    requires n <= |channels|
  {
    if n == 0 then map[]
    else Upstreams(current, channels, n - 1, field, model)
           [channels[n - 1].name := CellOf(current, Lookup(channels[n - 1].data, field, model))]
  }

  function Confidence(channels: seq<Channel>, n: nat, model: string): map<string, bool>
    requires n <= |channels|
  {
    if n == 0 then map[]
    else Confidence(channels, n - 1, model)[channels[n - 1].name := Trusted(channels[n - 1].data, model)]
  }

  function RawItem(local: Table, channels: seq<Channel>, field: string, model: string): Item {
    var current := LocalValue(local, field, model);
    Item(current, Upstreams(current, channels, |channels|, field, model), Confidence(channels, |channels|, model))
  }

  /** One channel's part in the loop: what is recorded, and whether it is a difference. */
  method CompareOne(current: Option<Value>, up: Option<Option<Value>>) returns (cell: Option<Value>, different: bool)
    ensures cell == CellOf(current, up)
    ensures up.None? ==> cell == if current.None? then Some(Str("same")) else None
    ensures up.Some? ==> cell == if ValuesEqual(current, up.value) then Some(Str("same")) else up.value
    ensures different <==> Differs(current, up) && (current.Some? || cell != SAME)
  {
    cell, different := None, false;
    if up.Some? {
      cell := up.value;
      if current.Some? && !ValuesEqual(current, cell) {
        different := true;
      } else if ValuesEqual(current, cell) {
        cell := SAME;
      }
    }
    if cell.None? && current.None? {
      cell := SAME;
    }
    if current.None? && cell.Some? && cell != SAME {
      different := true;
    }
  }

  /** The upstream loop for one model and field. */
  method Compare(local: Table, channels: seq<Channel>, field: string, model: string) returns (item: Item, shouldInclude: bool)
    ensures item == RawItem(local, channels, field, model)
    ensures shouldInclude == Included(local, channels, |channels|, field, model)
  {
    var current := LocalValue(local, field, model);
    var upstreams: map<string, Option<Value>>, confidence: map<string, bool> := map[], map[];
    var hasUpstream, hasDifference := false, false;
    for i := 0 to |channels|
      invariant upstreams == Upstreams(current, channels, i, field, model)
      invariant confidence == Confidence(channels, i, model)
      invariant Included(local, channels, i, field, model) == if current.Some? then hasDifference else hasUpstream
    {
      IncludedStep(local, channels, i, field, model);
      var up := Lookup(channels[i].data, field, model);
      var cell, different := CompareOne(current, up);
      hasUpstream := hasUpstream || up.Some?;
      hasDifference := hasDifference || different;
      upstreams := upstreams[channels[i].name := cell];
      confidence := confidence[channels[i].name := Trusted(channels[i].data, model)];
    }
    item := Item(current, upstreams, confidence);
    shouldInclude := if current.Some? then hasDifference else hasUpstream;
  }

  type Diff = map<string, map<string, Item>>

  predicate HasItem(d: Diff, model: string, field: string) {
    model in d && field in d[model]
  }

  /** Every model named anywhere in the compared fields. */
  function ModelsOf(data: Table): set<string> {
    set f, m | f in FIELDS && f in data && m in data[f] :: m
  }

  method CollectModels(local: Table, channels: seq<Channel>) returns (models: set<string>)
    ensures forall m :: m in models <==> m in ModelsOf(local) || exists i :: 0 <= i < |channels| && m in ModelsOf(channels[i].data)
  {
    models := ModelsOf(local);
    for i := 0 to |channels|
      invariant forall m :: m in models <==> m in ModelsOf(local) || exists j :: 0 <= j < i && m in ModelsOf(channels[j].data)
    {
      models := models + ModelsOf(channels[i].data);
    }
  }

  ghost predicate IsRow(row: map<string, Item>, local: Table, channels: seq<Channel>, model: string) {
    forall f ::
      && (f in row <==> f in FIELDS && Included(local, channels, |channels|, f, model))
      && (f in row ==> row[f] == RawItem(local, channels, f, model))
  }

  method FillModel(local: Table, channels: seq<Channel>, model: string) returns (row: map<string, Item>)
    ensures IsRow(row, local, channels, model)
  {
    row := map[];
    for i := 0 to |FIELDS|
      invariant forall f :: f in row <==> f in FIELDS[..i] && Included(local, channels, |channels|, f, model)
      invariant forall f :: f in row ==> row[f] == RawItem(local, channels, f, model)
    {
      assert FIELDS[..i + 1] == FIELDS[..i] + [FIELDS[i]];
      var item, shouldInclude := Compare(local, channels, FIELDS[i], model);
      if shouldInclude {
        row := row[FIELDS[i] := item];
      }
    }
    assert FIELDS[..|FIELDS|] == FIELDS;
  }

  /** The row of a model, which is absent from the result when it is empty. */
  function RowOf(d: Diff, model: string): map<string, Item> {
    if model in d then d[model] else map[]
  }

  ghost predicate NoEmptyRows(d: Diff) {
    forall m :: m in d ==> d[m] != map[]
  }

  function SetRow(d: Diff, model: string, row: map<string, Item>): Diff {
    if row == map[] then d - {model} else d[model := row]
  }

  lemma SetRowFacts(d: Diff, model: string, row: map<string, Item>)
    requires NoEmptyRows(d)
    ensures NoEmptyRows(SetRow(d, model, row)) && SetRow(d, model, row).Keys <= d.Keys + {model}
    ensures RowOf(SetRow(d, model, row), model) == row
    ensures forall m :: m != model ==> RowOf(SetRow(d, model, row), m) == RowOf(d, m)
  {
  }

  method Fill(local: Table, channels: seq<Channel>, models: set<string>) returns (d: Diff)
    ensures d.Keys <= models && NoEmptyRows(d)
    ensures forall m :: m in models ==> IsRow(RowOf(d, m), local, channels, m)
  {
    d := map[];
    var todo := models;
    while todo != {}
      invariant todo <= models && d.Keys <= models - todo && NoEmptyRows(d)
      invariant forall m :: m in models - todo ==> IsRow(RowOf(d, m), local, channels, m)
      decreases |todo|
    {
      var m :| m in todo;
      var row := FillModel(local, channels, m);
      SetRowFacts(d, m, row);
      d := SetRow(d, m, row);
      todo := todo - {m};
    }
  }

  // ---------- the pruning passes ----------

  predicate Visible(cell: Option<Value>) {
    cell.Some? && cell != SAME
  }

  predicate LoudIn(item: Item, name: string) {
    name in item.upstreams && Visible(item.upstreams[name])
  }

  predicate IsLoud(d: Diff, name: string) {
    exists m, f :: m in d && f in d[m] && LoudIn(d[m][f], name)
  }

  method LoudOfRow(row: map<string, Item>) returns (loud: set<string>)
    ensures forall n :: n in loud <==> exists f :: f in row && LoudIn(row[f], n)
  {
    loud := {};
    var todo := row.Keys;
    while todo != {}
      invariant todo <= row.Keys
      invariant forall n :: n in loud <==> exists f :: f in row && f !in todo && LoudIn(row[f], n)
      decreases |todo|
    {
      var f :| f in todo;
      loud := loud + set n | n in row[f].upstreams && Visible(row[f].upstreams[n]);
      todo := todo - {f};
    }
  }

  method LoudChannels(d: Diff) returns (loud: set<string>)
    ensures forall n :: n in loud <==> IsLoud(d, n)
  {
    loud := {};
    var todo := d.Keys;
    while todo != {}
      invariant todo <= d.Keys
      invariant forall n :: n in loud <==> exists m, f :: m in d && m !in todo && f in d[m] && LoudIn(d[m][f], n)
      decreases |todo|
    {
      var m :| m in todo;
      var more := LoudOfRow(d[m]);
      loud := loud + more;
      todo := todo - {m};
    }
  }

  function Pruned(item: Item, loud: set<string>): Item {
    Item(item.current,
         map n | n in item.upstreams && n in loud :: item.upstreams[n],
         map n | n in item.confidence && n in loud :: item.confidence[n])
  }

  /** Some channel is left, and not all that are left say "same". */
  predicate Survives(item: Item, loud: set<string>) {
    exists n :: n in item.upstreams && n in loud && item.upstreams[n] != SAME
  }

  lemma SurvivesIff(item: Item, loud: set<string>)
    ensures Survives(item, loud)
      <==> exists n :: n in Pruned(item, loud).upstreams && Pruned(item, loud).upstreams[n] != SAME
  {
    if Survives(item, loud) {
      var n :| n in item.upstreams && n in loud && item.upstreams[n] != SAME;
      assert n in Pruned(item, loud).upstreams;
    }
  }

  ghost predicate IsPrunedRow(kept: map<string, Item>, row: map<string, Item>, loud: set<string>) {
    forall f ::
      && (f in kept <==> f in row && Survives(row[f], loud))
      && (f in kept ==> kept[f] == Pruned(row[f], loud))
  }

  method PruneRow(row: map<string, Item>, loud: set<string>) returns (kept: map<string, Item>)
    ensures IsPrunedRow(kept, row, loud)
  {
    kept := row;
    var todo := row.Keys;
    while todo != {}
      invariant todo <= row.Keys
      invariant forall f :: f in kept <==> f in row && (f in todo || Survives(row[f], loud))
      invariant forall f :: f in kept ==> kept[f] == if f in todo then row[f] else Pruned(row[f], loud)
      decreases |todo|
    {
      var f :| f in todo;
      var item := Pruned(row[f], loud);
      SurvivesIff(row[f], loud);
      if forall n :: n in item.upstreams ==> item.upstreams[n] == SAME {
        kept := kept - {f};
      } else {
        kept := kept[f := item];
      }
      todo := todo - {f};
    }
  }

  method Prune(d: Diff, loud: set<string>) returns (kept: Diff)
    requires NoEmptyRows(d)
    ensures kept.Keys <= d.Keys && NoEmptyRows(kept)
    ensures forall m :: m in d ==> IsPrunedRow(RowOf(kept, m), d[m], loud)
  {
    kept := d;
    var todo := d.Keys;
    while todo != {}
      invariant todo <= d.Keys && kept.Keys <= d.Keys && NoEmptyRows(kept)
      invariant forall m :: m in todo ==> RowOf(kept, m) == d[m]
      invariant forall m :: m in d && m !in todo ==> IsPrunedRow(RowOf(kept, m), d[m], loud)
      decreases |todo|
    {
      var m :| m in todo;
      var row := PruneRow(d[m], loud);
      SetRowFacts(kept, m, row);
      kept := SetRow(kept, m, row);
      todo := todo - {m};
    }
  }

  /** The whole report, described item by item. */
  ghost predicate Reports(d: Diff, local: Table, channels: seq<Channel>, models: set<string>, loud: set<string>) {
    forall m, f ::
      && (HasItem(d, m, f) <==> m in models && f in FIELDS && Included(local, channels, |channels|, f, m)
                                && Survives(RawItem(local, channels, f, m), loud))
      && (HasItem(d, m, f) ==> d[m][f] == Pruned(RawItem(local, channels, f, m), loud))
  }

  ghost predicate Loud(local: Table, channels: seq<Channel>, models: set<string>, name: string) {
    exists m, f :: m in models && f in FIELDS && Included(local, channels, |channels|, f, m)
                   && LoudIn(RawItem(local, channels, f, m), name)
  }

  method BuildDifferences(local: Table, channels: seq<Channel>)
    returns (report: Diff, models: set<string>, loud: set<string>)
    ensures forall m :: m in models <==> m in ModelsOf(local) || exists i :: 0 <= i < |channels| && m in ModelsOf(channels[i].data)
    ensures forall n :: n in loud <==> Loud(local, channels, models, n)
    ensures Reports(report, local, channels, models, loud) && NoEmptyRows(report)
  {
    models := CollectModels(local, channels);
    var d := Fill(local, channels, models);
    loud := LoudChannels(d);
    report := Prune(d, loud);
    LoudAgrees(d, local, channels, models);
    ReportsAgree(d, report, local, channels, models, loud);
  }

  lemma LoudAgrees(d: Diff, local: Table, channels: seq<Channel>, models: set<string>)
    requires d.Keys <= models && forall m :: m in models ==> IsRow(RowOf(d, m), local, channels, m)
    ensures forall n :: IsLoud(d, n) <==> Loud(local, channels, models, n)
  {
    forall n ensures IsLoud(d, n) <==> Loud(local, channels, models, n) {
      if IsLoud(d, n) {
        var m, f :| m in d && f in d[m] && LoudIn(d[m][f], n);
        assert IsRow(RowOf(d, m), local, channels, m);
        assert LoudIn(RawItem(local, channels, f, m), n);
      }
      if Loud(local, channels, models, n) {
        var m, f :| m in models && f in FIELDS && Included(local, channels, |channels|, f, m)
                    && LoudIn(RawItem(local, channels, f, m), n);
        assert IsRow(RowOf(d, m), local, channels, m);
        assert f in RowOf(d, m);
        assert m in d && f in d[m] && LoudIn(d[m][f], n);
      }
    }
  }

  lemma ReportsAgree(d: Diff, kept: Diff, local: Table, channels: seq<Channel>, models: set<string>, loud: set<string>)
    requires d.Keys <= models && forall m :: m in models ==> IsRow(RowOf(d, m), local, channels, m)
    requires kept.Keys <= d.Keys && forall m :: m in d ==> IsPrunedRow(RowOf(kept, m), d[m], loud)
    ensures Reports(kept, local, channels, models, loud)
  {
    forall m, f
      ensures HasItem(kept, m, f) <==> m in models && f in FIELDS && Included(local, channels, |channels|, f, m)
                                       && Survives(RawItem(local, channels, f, m), loud)
      ensures HasItem(kept, m, f) ==> kept[m][f] == Pruned(RawItem(local, channels, f, m), loud)
    {
      assert HasItem(kept, m, f) <==> f in RowOf(kept, m);
      if m in models {
        assert IsRow(RowOf(d, m), local, channels, m);
        if m in d {
          assert IsPrunedRow(RowOf(kept, m), d[m], loud);
        }
      }
    }
  }

  // ---------- the report is exact ----------

  predicate DistinctNames(channels: seq<Channel>) {
    forall i, j :: 0 <= i < j < |channels| ==> channels[i].name != channels[j].name
  }

  predicate DiffersAt(local: Table, channel: Channel, field: string, model: string) {
    Differs(LocalValue(local, field, model), Lookup(channel.data, field, model))
  }

  /** Some channel really differs from the local price of this model and field. */
  predicate RealItem(local: Table, channels: seq<Channel>, field: string, model: string) {
    exists i :: 0 <= i < |channels| && DiffersAt(local, channels[i], field, model)
  }

  /** The channel really differs from the local prices somewhere. */
  ghost predicate RealChannel(local: Table, channel: Channel) {
    exists f, m :: f in FIELDS && DiffersAt(local, channel, f, m)
  }

  /** Upstream values are neither null nor the text "same". */
  ghost predicate Unmasked(channels: seq<Channel>) {
    forall i, f, m :: 0 <= i < |channels| && f in FIELDS && Lookup(channels[i].data, f, m).Some? ==>
      Visible(Lookup(channels[i].data, f, m).value)
  }

  lemma {:induction false} UpstreamsAt(current: Option<Value>, channels: seq<Channel>, n: nat, f: string, m: string, i: nat)
    requires DistinctNames(channels) && i < n <= |channels|
    ensures channels[i].name in Upstreams(current, channels, n, f, m)
    ensures Upstreams(current, channels, n, f, m)[channels[i].name] == CellOf(current, Lookup(channels[i].data, f, m))
    decreases n
  {
    if i < n - 1 { UpstreamsAt(current, channels, n - 1, f, m, i); }
  }

  lemma {:induction false} ConfidenceAt(channels: seq<Channel>, n: nat, m: string, i: nat)
    requires DistinctNames(channels) && i < n <= |channels|
    ensures channels[i].name in Confidence(channels, n, m)
    ensures Confidence(channels, n, m)[channels[i].name] == Trusted(channels[i].data, m)
    decreases n
  {
    var name, last := channels[i].name, channels[n - 1].name;
    assert Confidence(channels, n, m) == Confidence(channels, n - 1, m)[last := Trusted(channels[n - 1].data, m)];
    if i < n - 1 {
      ConfidenceAt(channels, n - 1, m, i);
      assert name != last;
    }
  }

  lemma {:induction false} UpstreamsOnly(current: Option<Value>, channels: seq<Channel>, n: nat, f: string, m: string, name: string)
    requires n <= |channels| && name in Upstreams(current, channels, n, f, m)
    ensures exists i :: 0 <= i < n && channels[i].name == name
    decreases n
  {
    if name != channels[n - 1].name { UpstreamsOnly(current, channels, n - 1, f, m, name); }
  }

  lemma KnownModel(local: Table, channels: seq<Channel>, i: nat, f: string, m: string)
    requires i < |channels| && f in FIELDS && DiffersAt(local, channels[i], f, m)
    ensures m in ModelsOf(channels[i].data)
    ensures Included(local, channels, |channels|, f, m)
  {
    assert Counts(local, channels[i], f, m);
  }

  ghost predicate AllModels(models: set<string>, local: Table, channels: seq<Channel>) {
    forall m :: m in models <==> m in ModelsOf(local) || exists i :: 0 <= i < |channels| && m in ModelsOf(channels[i].data)
  }

  /** The channel differs somewhere by a value that is neither null nor the text "same". */
  ghost predicate VisiblyDiffers(local: Table, channel: Channel) {
    exists f, m :: f in FIELDS && DiffersAt(local, channel, f, m) && Visible(Lookup(channel.data, f, m).value)
  }

  /** The channels that survive the first pruning pass are those with a visible difference. */
  lemma LoudIffVisible(local: Table, channels: seq<Channel>, models: set<string>, i: nat)
    requires DistinctNames(channels) && AllModels(models, local, channels) && i < |channels|
    ensures Loud(local, channels, models, channels[i].name) <==> VisiblyDiffers(local, channels[i])
  {
    var name := channels[i].name;
    if Loud(local, channels, models, name) {
      var m, f :| m in models && f in FIELDS && Included(local, channels, |channels|, f, m)
                  && LoudIn(RawItem(local, channels, f, m), name);
      UpstreamsAt(LocalValue(local, f, m), channels, |channels|, f, m, i);
      assert DiffersAt(local, channels[i], f, m);
    }
    if VisiblyDiffers(local, channels[i]) {
      var f, m :| f in FIELDS && DiffersAt(local, channels[i], f, m) && Visible(Lookup(channels[i].data, f, m).value);
      KnownModel(local, channels, i, f, m);
      UpstreamsAt(LocalValue(local, f, m), channels, |channels|, f, m, i);
      assert LoudIn(RawItem(local, channels, f, m), name);
    }
  }

  /** Without masked values a channel is loud exactly when it really differs somewhere. */
  lemma LoudIsReal(local: Table, channels: seq<Channel>, models: set<string>, i: nat)
    requires DistinctNames(channels) && Unmasked(channels) && AllModels(models, local, channels) && i < |channels|
    ensures Loud(local, channels, models, channels[i].name) <==> RealChannel(local, channels[i])
  {
    LoudIffVisible(local, channels, models, i);
    if RealChannel(local, channels[i]) {
      var f, m :| f in FIELDS && DiffersAt(local, channels[i], f, m);
      assert Visible(Lookup(channels[i].data, f, m).value);
    }
  }

  /** On any input an item is reported only for a real difference. */
  lemma ReportedIsReal(report: Diff, local: Table, channels: seq<Channel>, models: set<string>, loud: set<string>, f: string, m: string)
    requires DistinctNames(channels) && Reports(report, local, channels, models, loud) && HasItem(report, m, f)
    ensures f in FIELDS && RealItem(local, channels, f, m)
  {
    var current := LocalValue(local, f, m);
    var raw := RawItem(local, channels, f, m);
    var i :| 0 <= i < |channels| && Counts(local, channels[i], f, m);
    if current.Some? {
      assert DiffersAt(local, channels[i], f, m);
    } else {
      var name :| name in raw.upstreams && name in loud && raw.upstreams[name] != SAME;
      UpstreamsOnly(current, channels, |channels|, f, m, name);
      var j :| 0 <= j < |channels| && channels[j].name == name;
      UpstreamsAt(current, channels, |channels|, f, m, j);
      assert DiffersAt(local, channels[j], f, m);
    }
  }

  /** The channel's value does not show in the item: with a local price, the value equals it or
      is the text "same"; without one, it is missing, null or the text "same". */
  predicate Silent(current: Option<Value>, up: Option<Option<Value>>) {
    if current.Some? then up.Some? && (ValuesEqual(current, up.value) || up.value == SAME)
    else up.None? || !Visible(up.value)
  }

  predicate SilentAt(local: Table, channel: Channel, f: string, m: string) {
    Silent(LocalValue(local, f, m), Lookup(channel.data, f, m))
  }

  lemma SurvivesByChannel(local: Table, channels: seq<Channel>, loud: set<string>, f: string, m: string)
    requires DistinctNames(channels)
    ensures !Survives(RawItem(local, channels, f, m), loud) <==>
      forall i :: 0 <= i < |channels| && channels[i].name in loud ==> SilentAt(local, channels[i], f, m)
  {
    var current := LocalValue(local, f, m);
    var raw := RawItem(local, channels, f, m);
    if Survives(raw, loud) {
      var name :| name in raw.upstreams && name in loud && raw.upstreams[name] != SAME;
      UpstreamsOnly(current, channels, |channels|, f, m, name);
      var j :| 0 <= j < |channels| && channels[j].name == name;
      UpstreamsAt(current, channels, |channels|, f, m, j);
    } else {
      forall i | 0 <= i < |channels| && channels[i].name in loud
        ensures SilentAt(local, channels[i], f, m)
      {
        UpstreamsAt(current, channels, |channels|, f, m, i);
      }
    }
  }

  lemma RealItemIncluded(local: Table, channels: seq<Channel>, models: set<string>, f: string, m: string)
    requires AllModels(models, local, channels) && f in FIELDS && RealItem(local, channels, f, m)
    ensures m in models && Included(local, channels, |channels|, f, m)
  {
    var w :| 0 <= w < |channels| && DiffersAt(local, channels[w], f, m);
    KnownModel(local, channels, w, f, m);
  }

  /** On any input a real difference is missing from the report exactly when every channel with
      a visible difference anywhere is silent about this model and field. */
  lemma LostIff(report: Diff, local: Table, channels: seq<Channel>, models: set<string>, loud: set<string>, f: string, m: string)
    requires DistinctNames(channels) && AllModels(models, local, channels)
    requires forall n :: n in loud <==> Loud(local, channels, models, n)
    requires Reports(report, local, channels, models, loud)
    requires f in FIELDS && RealItem(local, channels, f, m)
    ensures !HasItem(report, m, f) <==>
      forall i :: 0 <= i < |channels| && VisiblyDiffers(local, channels[i]) ==> SilentAt(local, channels[i], f, m)
  {
    RealItemIncluded(local, channels, models, f, m);
    assert HasItem(report, m, f) <==> Survives(RawItem(local, channels, f, m), loud);
    SurvivesByChannel(local, channels, loud, f, m);
    forall i | 0 <= i < |channels|
      ensures channels[i].name in loud <==> VisiblyDiffers(local, channels[i])
    {
      LoudIffVisible(local, channels, models, i);
    }
  }

  lemma RealIsReported(report: Diff, local: Table, channels: seq<Channel>, models: set<string>, loud: set<string>, f: string, m: string)
    requires DistinctNames(channels) && Unmasked(channels) && AllModels(models, local, channels)
    requires forall n :: n in loud <==> Loud(local, channels, models, n)
    requires Reports(report, local, channels, models, loud)
    requires f in FIELDS && RealItem(local, channels, f, m)
    ensures HasItem(report, m, f)
  {
    var w :| 0 <= w < |channels| && DiffersAt(local, channels[w], f, m);
    assert Visible(Lookup(channels[w].data, f, m).value);
    assert VisiblyDiffers(local, channels[w]);
    LostIff(report, local, channels, models, loud, f, m);
  }

  // ---------- the report in terms of the data ----------

  predicate IsPriceField(f: string) {
    f in {"model_ratio", "completion_ratio", "cache_ratio", "create_cache_ratio", "image_ratio",
          "audio_ratio", "audio_completion_ratio", "model_price"}
  }

  predicate IsComparedField(f: string) {
    IsPriceField(f) || f == "billing_mode" || f == "billing_expr"
  }

  predicate Has(data: Table, f: string, m: string) { f in data && m in data[f] }

  /** The value of a table, null where there is none. */
  function ValueIn(data: Table, f: string, m: string): Option<Value> {
    if Has(data, f, m) then data[f][m] else None
  }

  /** The number a value stands for; an integer is one only in a price field. */
  function Number(f: string, v: Option<Value>): Option<real> {
    if v.Some? && v.value.Num? then Some(v.value.x)
    else if v.Some? && v.value.Int? && IsPriceField(f) then Some(v.value.n as real)
    else None
  }

  predicate Close(x: real, y: real) { -0.000000001 < x - y < 0.000000001 }

  predicate SamePrice(f: string, a: Option<Value>, b: Option<Value>) {
    if Number(f, a).Some? && Number(f, b).Some? then Close(Number(f, a).value, Number(f, b).value) else a == b
  }

  /** The cell is the value itself, as a real where it is an integer in a price field. */
  predicate ShowsValue(cell: Option<Value>, f: string, v: Option<Value>) {
    cell == if Number(f, v).Some? then Some(Num(Number(f, v).value)) else v
  }

  /** What an item must show for a channel: its own value where that differs from the local one,
      "same" where it does not or where neither side has one, and null where only the local side has. */
  predicate ShowsChannel(cell: Option<Value>, local: Table, data: Table, f: string, m: string) {
    if !Has(data, f, m) then cell == if ValueIn(local, f, m).None? then Some(Str("same")) else None
    else if SamePrice(f, ValueIn(local, f, m), data[f][m]) then cell == Some(Str("same"))
    else ShowsValue(cell, f, data[f][m])
  }

  /** Model ratio 37.5 and completion ratio 1, up to epsilon. */
  predicate Suspicious(data: Table, m: string) {
    var x, y := Number("model_ratio", ValueIn(data, "model_ratio", m)), Number("completion_ratio", ValueIn(data, "completion_ratio", m));
    x.Some? && y.Some? && Close(x.value, 37.5) && Close(y.value, 1.0)
  }

  lemma FieldsAre(f: string)
    ensures f in FIELDS <==> IsComparedField(f)
    ensures IsNumericField(f) <==> IsPriceField(f)
  {
    if IsComparedField(f) {
      assert FIELDS[0] == "model_ratio" && FIELDS[1] == "completion_ratio" && FIELDS[2] == "cache_ratio" && FIELDS[3] == "create_cache_ratio"
          && FIELDS[4] == "image_ratio" && FIELDS[5] == "audio_ratio" && FIELDS[6] == "audio_completion_ratio" && FIELDS[7] == "model_price"
          && FIELDS[8] == "billing_mode" && FIELDS[9] == "billing_expr";
    }
  }

  lemma NormalizedShows(f: string, v: Option<Value>)
    ensures ShowsValue(NormalizeValue(f, v), f, v)
  {
    FieldsAre(f);
  }

  lemma NormalizedEqual(f: string, a: Option<Value>, b: Option<Value>)
    ensures ValuesEqual(NormalizeValue(f, a), NormalizeValue(f, b)) <==> SamePrice(f, a, b)
  {
    FieldsAre(f);
  }

  lemma LocalShows(local: Table, f: string, m: string)
    ensures LocalValue(local, f, m) == NormalizeValue(f, ValueIn(local, f, m))
  {
  }

  /** A channel differs exactly if it has a value that is not the local one, up to epsilon. */
  lemma DiffersIff(local: Table, channel: Channel, f: string, m: string)
    ensures DiffersAt(local, channel, f, m) <==>
      Has(channel.data, f, m) && !SamePrice(f, ValueIn(local, f, m), channel.data[f][m])
  {
    LocalShows(local, f, m);
    NormalizedEqual(f, ValueIn(local, f, m), ValueIn(channel.data, f, m));
  }

  lemma CellShows(local: Table, data: Table, f: string, m: string)
    ensures ShowsChannel(CellOf(LocalValue(local, f, m), Lookup(data, f, m)), local, data, f, m)
    ensures ShowsValue(LocalValue(local, f, m), f, ValueIn(local, f, m))
  {
    LocalShows(local, f, m);
    NormalizedEqual(f, ValueIn(local, f, m), ValueIn(data, f, m));
    NormalizedShows(f, ValueIn(data, f, m));
    NormalizedShows(f, ValueIn(local, f, m));
  }

  lemma LocalCellShows(local: Table, f: string, m: string)
    ensures ShowsValue(LocalValue(local, f, m), f, ValueIn(local, f, m))
  {
    CellShows(local, map[], f, m);
  }

  lemma TrustedIff(data: Table, m: string)
    ensures Trusted(data, m) <==> !Suspicious(data, m)
  {
    FieldsAre("model_ratio");
    FieldsAre("completion_ratio");
  }

  /** Without masked values the report holds exactly the real differences, and each item lists
      exactly the channels that really differ somewhere, with the right cell and confidence. */
  lemma ReportIsExact(report: Diff, local: Table, channels: seq<Channel>, models: set<string>, loud: set<string>, f: string, m: string)
    requires DistinctNames(channels) && Unmasked(channels) && AllModels(models, local, channels)
    requires forall n :: n in loud <==> Loud(local, channels, models, n)
    requires Reports(report, local, channels, models, loud)
    ensures HasItem(report, m, f) <==> IsComparedField(f) && RealItem(local, channels, f, m)
    ensures HasItem(report, m, f) ==>
      && ShowsValue(report[m][f].current, f, ValueIn(local, f, m))
      && (forall i :: 0 <= i < |channels| ==>
            (channels[i].name in report[m][f].upstreams <==> RealChannel(local, channels[i])))
      && (forall n :: n in report[m][f].upstreams ==> exists i :: 0 <= i < |channels| && channels[i].name == n)
      && (forall i :: 0 <= i < |channels| && RealChannel(local, channels[i]) ==>
            && channels[i].name in report[m][f].upstreams && channels[i].name in report[m][f].confidence
            && ShowsChannel(report[m][f].upstreams[channels[i].name], local, channels[i].data, f, m)
            && (report[m][f].confidence[channels[i].name] <==> !Suspicious(channels[i].data, m)))
  {
    FieldsAre(f);
    var current := LocalValue(local, f, m);
    if HasItem(report, m, f) {
      ReportedIsReal(report, local, channels, models, loud, f, m);
      LocalCellShows(local, f, m);
      forall i | 0 <= i < |channels|
        ensures channels[i].name in report[m][f].upstreams <==> RealChannel(local, channels[i])
        ensures RealChannel(local, channels[i]) ==>
            && channels[i].name in report[m][f].upstreams && channels[i].name in report[m][f].confidence
            && ShowsChannel(report[m][f].upstreams[channels[i].name], local, channels[i].data, f, m)
            && (report[m][f].confidence[channels[i].name] <==> !Suspicious(channels[i].data, m))
      {
        CellShows(local, channels[i].data, f, m);
        TrustedIff(channels[i].data, m);
        LoudIsReal(local, channels, models, i);
        UpstreamsAt(current, channels, |channels|, f, m, i);
        ConfidenceAt(channels, |channels|, m, i);
      }
      forall n | n in report[m][f].upstreams
        ensures exists i :: 0 <= i < |channels| && channels[i].name == n
      {
        UpstreamsOnly(current, channels, |channels|, f, m, n);
      }
    } else if f in FIELDS && RealItem(local, channels, f, m) {
      RealIsReported(report, local, channels, models, loud, f, m);
    }
  }

  /** A channel whose billing mode is the text "same" differs from an empty local table, and
      yet no set of channels keeps the item. */
  lemma SameTextIsLost(name: string, model: string, loud: set<string>)
    ensures var channels := [Channel(name, map["billing_mode" := map[model := SAME]])];
      RealItem(map[], channels, "billing_mode", model)
      && !Survives(RawItem(map[], channels, "billing_mode", model), loud)
  {
    var channels := [Channel(name, map["billing_mode" := map[model := SAME]])];
    assert Lookup(channels[0].data, "billing_mode", model) == Some(SAME);
    assert DiffersAt(map[], channels[0], "billing_mode", model);
    SurvivesByChannel(map[], channels, loud, "billing_mode", model);
  }
}
