/**
Selection of one price per model from the models.dev catalogue. Prices are
compared up to an epsilon, a relation that is not transitive; the selection is
a fold over the providers in ascending name order.
*/
module ModelsDev {
  import opened Prelude
  import opened PriceDiff
  import QuotaMath

  datatype Cost = Cost(input: Option<Float>, output: Option<Float>, cacheRead: Option<Float>)

  datatype Candidate = Candidate(provider: string, input: real, output: Option<real>, cacheRead: Option<real>)

  type Catalogue = map<string, map<string, Cost>>

  predicate IsValidCost(v: Float) {
    v.Fin? && v.x >= 0.0
  }

  function BuildCandidate(provider: string, cost: Cost): Option<Candidate> {
    if cost.input.None? || !IsValidCost(cost.input.value) then None
    else if cost.output.Some? && !IsValidCost(cost.output.value) then None
    else if cost.input.value.x == 0.0 && cost.output.Some? && cost.output.value.x > 0.0 then None
    else
      Some(Candidate(provider, cost.input.value.x,
        if cost.output.Some? then Some(cost.output.value.x) else None,
        if cost.cacheRead.Some? && IsValidCost(cost.cacheRead.value) then Some(cost.cacheRead.value.x) else None))
  }

  predicate Less(a: string, b: string)
    decreases |a|
  {
    b != "" && (a == "" || a[0] < b[0] || (a[0] == b[0] && Less(a[1..], b[1..])))
  }

  predicate ShouldReplace(current: Candidate, next: Candidate) {
    if (current.input > 0.0) != (next.input > 0.0) then next.input > 0.0
    else if next.input > 0.0 && !NearlyEqual(next.input, current.input) then next.input < current.input
    else Less(next.provider, current.provider)
  }

  /** What a provider offers for a model, if the entry is usable. */
  function Offer(up: Catalogue, provider: string, model: string): Option<Candidate> {
    if provider in up && model in up[provider] then BuildCandidate(provider, up[provider][model]) else None
  }

  function Better(current: Option<Candidate>, next: Option<Candidate>): Option<Candidate> {
    if next.None? then current
    else if current.None? || ShouldReplace(current.value, next.value) then next
    else current
  }

  /** The selection after the first n providers. */
  function Selected(up: Catalogue, providers: seq<string>, n: nat, model: string): Option<Candidate>
    requires n <= |providers|
  {
    if n == 0 then None else Better(Selected(up, providers, n - 1, model), Offer(up, providers[n - 1], model))
  }

  predicate Ascending(names: seq<string>) {
    forall i, j :: 0 <= i < j < |names| ==> Less(names[i], names[j])
  }

  lemma {:induction false} LessIsStrictOrder(a: string, b: string, c: string)
    ensures !(Less(a, b) && Less(b, a))
    ensures Less(a, b) && Less(b, c) ==> Less(a, c)
    ensures Less(a, b) || Less(b, a) || a == b
    decreases |a| + |b| + |c|
  {
    if a != "" && b != "" {
      LessIsStrictOrder(a[1..], b[1..], if c == "" then "" else c[1..]);
      assert a == [a[0]] + a[1..] && b == [b[0]] + b[1..];
    }
  }

  lemma {:induction false} SelectedIsAnOffer(up: Catalogue, providers: seq<string>, n: nat, model: string)
    requires n <= |providers|
    ensures Selected(up, providers, n, model).Some? <==> exists i :: 0 <= i < n && Offer(up, providers[i], model).Some?
    ensures Selected(up, providers, n, model).Some? ==>
      exists i :: 0 <= i < n && Offer(up, providers[i], model) == Selected(up, providers, n, model)
    decreases n
  {
    if n > 0 { SelectedIsAnOffer(up, providers, n - 1, model); }
  }

  /** The price kept so far beats every non-zero price seen so far up to epsilon, without the
      error adding up; zero is kept only while nothing but zero has been seen. */
  lemma {:induction false} SelectedIsCheapest(up: Catalogue, providers: seq<string>, n: nat, model: string, i: nat)
    requires n <= |providers| && Ascending(providers)
    requires i < n && Offer(up, providers[i], model).Some?
    ensures Selected(up, providers, n, model).Some?
    ensures var c, x := Selected(up, providers, n, model).value, Offer(up, providers[i], model).value;
      && (x.input > 0.0 ==> 0.0 < c.input < x.input + EPSILON)
      && (c.input == 0.0 ==> x.input == 0.0)
    decreases n
  {
    SelectedIsAnOffer(up, providers, n, model);
    SelectedIsAnOffer(up, providers, n - 1, model);
    if i < n - 1 {
      SelectedIsCheapest(up, providers, n - 1, model, i);
    }
    if Selected(up, providers, n - 1, model).Some? {
      var j :| 0 <= j < n - 1 && Offer(up, providers[j], model) == Selected(up, providers, n - 1, model);
      LessIsStrictOrder(providers[j], providers[n - 1], "");
    }
  }

  predicate Offered(up: Catalogue, model: string) {
    exists p :: p in up && Offer(up, p, model).Some?
  }

  /** A usable offer that is zero only if every usable offer is, and otherwise a non-zero one
      below the cheapest non-zero one plus epsilon. */
  predicate Cheapest(up: Catalogue, model: string, c: Candidate) {
    && (exists p :: p in up && Offer(up, p, model) == Some(c))
    && (c.input == 0.0 <==> forall p :: p in up && Offer(up, p, model).Some? ==> Offer(up, p, model).value.input == 0.0)
    && (forall p :: p in up && Offer(up, p, model).Some? && Offer(up, p, model).value.input > 0.0 ==>
          0.0 < c.input < Offer(up, p, model).value.input + EPSILON)
  }

  /** The fold over the providers in ascending order selects a cheapest offer of every model that has one. */
  lemma SelectionIsCheapest(up: Catalogue, providers: seq<string>, model: string)
    requires Ascending(providers) && forall p :: p in up <==> p in providers
    ensures var s := Selected(up, providers, |providers|, model);
      (s.Some? <==> Offered(up, model)) && (s.Some? ==> Cheapest(up, model, s.value))
  {
    var n := |providers|;
    var s := Selected(up, providers, n, model);
    SelectedIsAnOffer(up, providers, n, model);
    forall p | p in up && Offer(up, p, model).Some?
      ensures s.Some?
      ensures var c, x := s.value, Offer(up, p, model).value;
        (x.input > 0.0 ==> 0.0 < c.input < x.input + EPSILON) && (c.input == 0.0 ==> x.input == 0.0)
    {
      var i :| 0 <= i < n && providers[i] == p;
      SelectedIsCheapest(up, providers, n, model, i);
    }
    if s.Some? {
      var j :| 0 <= j < n && Offer(up, providers[j], model) == s;
      assert providers[j] in up;
    }
  }

  function Priced(price: real): Cost {
    Cost(Some(Fin(price)), None, None)
  }

  /** The sorted order is what keeps the error from adding up: in descending order three offers
      less than epsilon apart lead to a price more than epsilon above the cheapest. */
  lemma UnsortedOrderDrifts()
    ensures var up: Catalogue := map["a" := map["m" := Priced(1.0 + 1.5 * EPSILON)],
                                     "b" := map["m" := Priced(1.0 + 0.8 * EPSILON)],
                                     "c" := map["m" := Priced(1.0)]];
      var s := Selected(up, ["c", "b", "a"], 3, "m");
      s.Some? && s.value.input >= Offer(up, "c", "m").value.input + EPSILON
  {
    var up: Catalogue := map["a" := map["m" := Priced(1.0 + 1.5 * EPSILON)],
                             "b" := map["m" := Priced(1.0 + 0.8 * EPSILON)],
                             "c" := map["m" := Priced(1.0)]];
    var order := ["c", "b", "a"];
    assert Selected(up, order, 1, "m") == Offer(up, "c", "m");
    assert Less("b", "c") && Less("a", "b");
    assert Selected(up, order, 2, "m") == Offer(up, "b", "m");
    assert Selected(up, order, 3, "m") == Offer(up, "a", "m");
  }

  // ---------- the conversion ----------

  method InsertSorted(sorted: seq<string>, name: string) returns (r: seq<string>)
    requires Ascending(sorted) && name !in sorted
    ensures Ascending(r) && forall x :: x in r <==> x in sorted || x == name
  {
    var i := 0;
    while i < |sorted| && Less(sorted[i], name)
      invariant 0 <= i <= |sorted|
      invariant forall j :: 0 <= j < i ==> Less(sorted[j], name)
    {
      i := i + 1;
    }
    r := sorted[..i] + [name] + sorted[i..];
    forall j | i <= j < |sorted|
      ensures Less(name, sorted[j])
    {
      assert sorted[i] in sorted;
      LessIsStrictOrder(name, sorted[i], sorted[j]);
    }
  }

  /** sort.Strings over the keys of a map. */
  method SortedKeys(keys: set<string>) returns (sorted: seq<string>)
    ensures Ascending(sorted) && forall x :: x in sorted <==> x in keys
  {
    sorted := [];
    var todo := keys;
    while todo != {}
      invariant todo <= keys && Ascending(sorted)
      invariant forall x :: x in sorted <==> x in keys && x !in todo
      decreases |todo|
    {
      var k :| k in todo;
      sorted := InsertSorted(sorted, k);
      todo := todo - {k};
    }
  }

  function Pick(selected: map<string, Candidate>, model: string): Option<Candidate> {
    if model in selected then Some(selected[model]) else None
  }

  /** One provider's turn: its models in order, each against the selection so far. */
  method OfferAll(up: Catalogue, provider: string, selected: map<string, Candidate>) returns (next: map<string, Candidate>)
    requires provider in up
    ensures forall m :: Pick(next, m) == Better(Pick(selected, m), Offer(up, provider, m))
  {
    next := selected;
    var models := SortedKeys(up[provider].Keys);
    for i := 0 to |models|
      invariant forall m :: Pick(next, m) == if m in models[..i] then Better(Pick(selected, m), Offer(up, provider, m)) else Pick(selected, m)
    {
      var candidate := BuildCandidate(provider, up[provider][models[i]]);
      assert models[i] !in models[..i] by {
        forall j | 0 <= j < i ensures models[j] != models[i] { LessIsStrictOrder(models[j], models[i], ""); }
      }
      assert models[..i + 1] == models[..i] + [models[i]];
      if candidate.Some? {
        if models[i] !in next || ShouldReplace(next[models[i]], candidate.value) {
          next := next[models[i] := candidate.value];
        }
      }
    }
    assert models[..|models|] == models;
  }

  method SelectCandidates(up: Catalogue) returns (selected: map<string, Candidate>, providers: seq<string>)
    ensures Ascending(providers) && forall p :: p in up <==> p in providers
    ensures forall m :: Pick(selected, m) == Selected(up, providers, |providers|, m)
  {
    selected := map[];
    providers := SortedKeys(up.Keys);
    for i := 0 to |providers|
      invariant forall m :: Pick(selected, m) == Selected(up, providers, i, m)
    {
      assert providers[i] in up;
      selected := OfferAll(up, providers[i], selected);
    }
  }

  function RoundRatio(v: real): real {
    QuotaMath.Round(v * 1000000.0) as real / 1000000.0
  }

  lemma RoundRatioError(v: real)
    ensures -0.0000005 <= RoundRatio(v) - v <= 0.0000005
  {
    var x := v * 1000000.0;
    assert -0.5 <= QuotaMath.Round(x) as real - x <= 0.5;
  }

  const USD := 500.0
  const INPUT_COST_RATIO_BASE := 1000.0

  function ModelRatio(c: Candidate): real {
    if c.input == 0.0 then 0.0 else RoundRatio(c.input * USD / INPUT_COST_RATIO_BASE)
  }

  function Quotient(part: Option<real>, c: Candidate): Option<real> {
    if c.input == 0.0 || part.None? then None else Some(RoundRatio(part.value / c.input))
  }

  /** The ratios of a model: its model ratio, and its completion and cache ratios where they exist. */
  datatype Ratio = Ratio(model: real, completion: Option<real>, cache: Option<real>)

  function RatioOf(c: Candidate): Ratio {
    Ratio(ModelRatio(c), Quotient(c.output, c), Quotient(c.cacheRead, c))
  }

  method ToRatios(selected: map<string, Candidate>) returns (r: map<string, Ratio>)
    ensures r.Keys == selected.Keys
    ensures forall m :: m in selected ==> r[m] == RatioOf(selected[m])
  {
    r := map[];
    var todo := selected.Keys;
    while todo != {}
      invariant todo <= selected.Keys && r.Keys == selected.Keys - todo
      invariant forall m :: m in r ==> r[m] == RatioOf(selected[m])
      decreases |todo|
    {
      var m :| m in todo;
      r := r[m := RatioOf(selected[m])];
      todo := todo - {m};
    }
  }

  /** A model ratio is half the selected cost, up to rounding at the sixth digit. */
  lemma ModelRatioIsHalfCost(c: Candidate)
    ensures -0.0000005 <= ModelRatio(c) - c.input / 2.0 <= 0.0000005
  {
    RoundRatioError(c.input * USD / INPUT_COST_RATIO_BASE);
  }

  // ---------- the conversion in terms of the catalogue ----------

  /** An entry that can be turned into ratios: a finite input cost that is not negative and, if an
      output cost is given, that too, and not for free input. */
  predicate Usable(cost: Cost) {
    && cost.input.Some? && cost.input.value.Fin? && cost.input.value.x >= 0.0
    && (cost.output.Some? ==>
          && cost.output.value.Fin? && cost.output.value.x >= 0.0
          && (cost.output.value.x > 0.0 ==> cost.input.value.x > 0.0))
  }

  predicate Lists(up: Catalogue, p: string, m: string) {
    p in up && m in up[p] && Usable(up[p][m])
  }

  function InputCost(up: Catalogue, p: string, m: string): real
    requires Lists(up, p, m)
  {
    up[p][m].input.value.x
  }

  /** No provider is more than an epsilon cheaper, free entries aside, and this one is free only if
      all are. */
  ghost predicate CheapestEntry(up: Catalogue, p: string, m: string) {
    && Lists(up, p, m)
    && (InputCost(up, p, m) == 0.0 <==> forall q :: Lists(up, q, m) ==> InputCost(up, q, m) == 0.0)
    && (forall q :: Lists(up, q, m) && InputCost(up, q, m) > 0.0 ==> 0.0 < InputCost(up, p, m) < InputCost(up, q, m) + 0.000000001)
  }

  predicate Near(x: real, y: real) { -0.0000005 <= x - y <= 0.0000005 }

  /** The ratios an entry stands for: half the input cost, output over input and cache read over
      input, each rounded at the sixth digit, the last two where both costs make sense. */
  predicate RatiosFor(r: Ratio, cost: Cost)
    requires Usable(cost)
  {
    var input := cost.input.value.x;
    && Near(r.model, input / 2.0) && (input == 0.0 ==> r.model == 0.0)
    && (r.completion.Some? <==> input > 0.0 && cost.output.Some?)
    && (r.completion.Some? ==> Near(r.completion.value, cost.output.value.x / input))
    && (r.cache.Some? <==> input > 0.0 && cost.cacheRead.Some? && cost.cacheRead.value.Fin? && cost.cacheRead.value.x >= 0.0)
    && (r.cache.Some? ==> Near(r.cache.value, cost.cacheRead.value.x / input))
  }

  lemma OfferIff(up: Catalogue, p: string, m: string)
    ensures Offer(up, p, m).Some? <==> Lists(up, p, m)
    ensures Lists(up, p, m) ==> Offer(up, p, m).value.input == InputCost(up, p, m)
  {
  }

  lemma QuotientIsNear(part: real, c: Candidate)
    requires c.input > 0.0
    ensures Quotient(Some(part), c).Some? && Near(Quotient(Some(part), c).value, part / c.input)
  {
    RoundRatioError(part / c.input);
  }

  lemma RatioIsRight(up: Catalogue, p: string, m: string)
    requires Lists(up, p, m)
    ensures RatiosFor(RatioOf(Offer(up, p, m).value), up[p][m])
  {
    OfferIff(up, p, m);
    var c := Offer(up, p, m).value;
    ModelRatioIsHalfCost(c);
    if c.input > 0.0 {
      if c.output.Some? { QuotientIsNear(c.output.value, c); }
      if c.cacheRead.Some? { QuotientIsNear(c.cacheRead.value, c); }
    }
  }

  lemma CheapestIsEntry(up: Catalogue, m: string, c: Candidate) returns (p: string)
    requires Cheapest(up, m, c)
    ensures CheapestEntry(up, p, m) && Offer(up, p, m) == Some(c)
  {
    p :| p in up && Offer(up, p, m) == Some(c);
    forall q ensures Offer(up, q, m).Some? <==> Lists(up, q, m) ensures Lists(up, q, m) ==> Offer(up, q, m).value.input == InputCost(up, q, m) {
      OfferIff(up, q, m);
    }
  }

  /** The ratios are those of a cheapest entry for the model. */
  ghost predicate Fair(up: Catalogue, m: string, r: Ratio) {
    exists p :: CheapestEntry(up, p, m) && RatiosFor(r, up[p][m])
  }

  ghost predicate Listed(up: Catalogue, m: string) {
    exists p :: Lists(up, p, m)
  }

  lemma SelectedIsFair(up: Catalogue, providers: seq<string>, m: string)
    requires Ascending(providers) && forall p :: p in up <==> p in providers
    ensures var s := Selected(up, providers, |providers|, m);
      (s.Some? <==> Listed(up, m)) && (s.Some? ==> Fair(up, m, RatioOf(s.value)))
  {
    SelectionIsCheapest(up, providers, m);
    var s := Selected(up, providers, |providers|, m);
    if s.Some? {
      var p := CheapestIsEntry(up, m, s.value);
      RatioIsRight(up, p, m);
    }
    if Listed(up, m) {
      var p :| Lists(up, p, m);
      OfferIff(up, p, m);
      assert Offered(up, m);
    }
  }

  /** The conversion fails exactly when no model has a usable entry; otherwise it answers
      exactly the models that have one, each with the ratios of a cheapest entry. */
  method Convert(up: Catalogue) returns (r: Option<map<string, Ratio>>)
    ensures r.None? <==> forall m :: !Listed(up, m)
    ensures r.Some? ==> forall m :: m in r.value <==> Listed(up, m)
    ensures r.Some? ==> forall m :: m in r.value ==> Fair(up, m, r.value[m])
  {
    var selected, providers := SelectCandidates(up);
    forall m
      ensures m in selected <==> Listed(up, m)
      ensures m in selected ==> Fair(up, m, RatioOf(selected[m]))
    {
      SelectedIsFair(up, providers, m);
      assert m in selected <==> Pick(selected, m).Some?;
    }
    if |selected| == 0 {
      return None;
    }
    var k :| k in selected;
    assert Listed(up, k);
    var ratios := ToRatios(selected);
    return Some(ratios);
  }
}
