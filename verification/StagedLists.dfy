/**
The staged lists after an apply against a new detection. They agree exactly
when the names that look like patterns and the names with commas, which are
read back in pieces, do no harm; both are spelled out in terms of the channel,
the upstream and the request.
*/
module StagedLists {
  import opened ModelNames
  import opened StoredNames
  import opened UpstreamSync

  // ---------- the staged removals ----------

  /** Every piece of an added name is a name the channel keeps, a mapped name or one the upstream offers. */
  predicate PiecesBelong(row: Row, u: Upstream, req: Request) {
    forall q :: q in Pieces(SelectedAdd(row, req)) ==> q in Remaining(row, req) || q in u.mapping.Keys || q in u.Offered()
  }

  lemma FilterExtension(keep: string -> bool, xs: seq<string>, all: seq<string>)
    requires xs <= all && Distinct(all)
    ensures Filter(keep, all) == Filter(keep, xs) <==> forall q :: q in all && q !in xs ==> !keep(q)
  {
    var rest := all[|xs|..];
    assert all == xs + rest;
    FilterAppend(keep, xs, rest);
    FilterAll(keep, rest);
    assert forall q :: q in rest <==> q in all && q !in xs;
  }

  lemma RemainingAreStaged(row: Row, u: Upstream, req: Request)
    requires Fresh(row, u)
    ensures Filter(RemoveTest(u), Remaining(row, req)) == Subtract(row.settings.removed, SelectedRemove(row, req))
  {
    RemoveSide(row, u, req);
    NextModelsShape(row, u, req);
    SelectionFacts(row, u, req);
    FilterAppend(RemoveTest(u), Remaining(row, req), SelectedAdd(row, req));
    FilterAll(RemoveTest(u), SelectedAdd(row, req));
  }

  lemma RemoveSideIff(row: Row, u: Upstream, req: Request, now: int)
    requires Fresh(row, u)
    ensures Filter(RemoveTest(u), Local(Apply(row, req, now))) == Subtract(row.settings.removed, SelectedRemove(row, req))
      <==> PiecesBelong(row, u, req)
  {
    var rest, pieces := Remaining(row, req), Pieces(SelectedAdd(row, req));
    RemainingAreStaged(row, u, req);
    LocalAfterAnyApply(row, u, req, now);
    RemainingIsPlain(row, req);
    UniqKeepsPrefix(rest, pieces);
    FilterExtension(RemoveTest(u), rest, Uniq(rest + pieces));
  }

  // ---------- the staged additions ----------

  /** An entry the ignore list holds after the apply. */
  predicate Remembered(row: Row, req: Request, e: string) {
    (e in Normalize(row.settings.ignored) || e in SelectedIgnore(row, req)) && e !in SelectedAdd(row, req)
  }

  ghost predicate StillHidden(row: Row, u: Upstream, req: Request, m: string) {
    exists e :: Remembered(row, req, e) && Hides(e, m, u)
  }

  /** A staged addition that is neither added nor ignored. */
  predicate LeftPending(row: Row, req: Request, m: string) {
    m in row.settings.detected && m !in SelectedAdd(row, req) && m !in SelectedIgnore(row, req)
  }

  /** An offered name that is neither local nor the target of a mapping. */
  predicate Candidate(row: Row, u: Upstream, m: string) {
    m in u.Offered() && m !in Local(row) && m !in u.mapping.Values
  }

  /** The name is read back as a local name, or hidden. */
  ghost predicate Gone(row: Row, u: Upstream, req: Request, m: string) {
    m in Pieces(SelectedAdd(row, req)) || StillHidden(row, u, req, m)
  }

  /** Added names with a comma, which are not read back, are hidden, and no piece of one is a
      name left pending. */
  ghost predicate CommasHarmless(row: Row, u: Upstream, req: Request) {
    && (forall m :: m in SelectedAdd(row, req) && COMMA in m ==> StillHidden(row, u, req, m))
    && (forall q :: q in Pieces(SelectedAdd(row, req)) ==> !LeftPending(row, req, q))
  }

  /** An ignored pattern name is itself gone and hides no name left pending, and a pattern that
      an addition takes off the ignore list was not needed. */
  ghost predicate PatternsHarmless(row: Row, u: Upstream, req: Request) {
    var add, ign := SelectedAdd(row, req), SelectedIgnore(row, req);
    && (forall m :: m in ign && m !in add && IsPattern(m) ==> Gone(row, u, req, m))
    && (forall p, m :: p in ign && p !in add && IsPattern(p) && LeftPending(row, req, m) ==> !Hides(p, m, u))
    && (forall e, m :: e in Normalize(row.settings.ignored) && e in add && IsPattern(e) && Candidate(row, u, m) && Hides(e, m, u)
          ==> Gone(row, u, req, m))
  }

  lemma StillHiddenIff(row: Row, u: Upstream, req: Request, m: string)
    requires Fresh(row, u)
    ensures StillHidden(row, u, req, m) <==> Hidden(NextIgnored(row, req), m, u)
  {
    NextIgnoredMembers(row, u, req);
    if Hidden(NextIgnored(row, req), m, u) {
      var e := HidingEntry(NextIgnored(row, req), m, u);
      assert Remembered(row, req, e);
    }
    if StillHidden(row, u, req, m) {
      var e :| Remembered(row, req, e) && Hides(e, m, u);
      EntryHides(NextIgnored(row, req), e, m, u);
    }
  }

  /** What a detection staged: exactly the candidates that were not hidden. */
  lemma DetectedIff(row: Row, u: Upstream, m: string)
    requires Fresh(row, u)
    ensures m in row.settings.detected <==> Candidate(row, u, m) && !Hidden(Normalize(row.settings.ignored), m, u)
  {
  }

  /** The name is gone from a new detection exactly if it was hidden before or was ticked. */
  ghost predicate AgreesOn(row: Row, u: Upstream, req: Request, m: string) {
    Gone(row, u, req, m) <==>
      Hidden(Normalize(row.settings.ignored), m, u) || m in SelectedAdd(row, req) || m in SelectedIgnore(row, req)
  }

  lemma GoneWasHiddenOrTicked(row: Row, u: Upstream, req: Request, m: string)
    requires Fresh(row, u) && CommasHarmless(row, u, req) && PatternsHarmless(row, u, req)
    requires Candidate(row, u, m) && Gone(row, u, req, m)
    ensures Hidden(Normalize(row.settings.ignored), m, u) || m in SelectedAdd(row, req) || m in SelectedIgnore(row, req)
  {
    DetectedIff(row, u, m);
    if m !in Pieces(SelectedAdd(row, req)) {
      var e :| Remembered(row, req, e) && Hides(e, m, u);
      if e in Normalize(row.settings.ignored) { EntryHides(Normalize(row.settings.ignored), e, m, u); }
    }
  }

  lemma AddedIsGone(row: Row, u: Upstream, req: Request, m: string)
    requires Fresh(row, u) && CommasHarmless(row, u, req) && m in SelectedAdd(row, req)
    ensures Gone(row, u, req, m)
  {
    SelectionFacts(row, u, req);
    if COMMA !in m { PlainNameIsPiece(SelectedAdd(row, req), m); }
  }

  lemma IgnoredIsGone(row: Row, u: Upstream, req: Request, m: string)
    requires PatternsHarmless(row, u, req) && m in SelectedIgnore(row, req) && m !in SelectedAdd(row, req)
    ensures Gone(row, u, req, m)
  {
    assert !IsPattern(m) ==> Remembered(row, req, m) && Hides(m, m, u);
  }

  lemma HiddenIsGone(row: Row, u: Upstream, req: Request, m: string)
    requires PatternsHarmless(row, u, req) && Candidate(row, u, m) && m !in SelectedAdd(row, req)
    requires Hidden(Normalize(row.settings.ignored), m, u)
    ensures Gone(row, u, req, m)
  {
    var e := HidingEntry(Normalize(row.settings.ignored), m, u);
    assert e !in SelectedAdd(row, req) ==> Remembered(row, req, e);
  }

  lemma HarmlessAgrees(row: Row, u: Upstream, req: Request, m: string)
    requires Fresh(row, u) && CommasHarmless(row, u, req) && PatternsHarmless(row, u, req) && Candidate(row, u, m)
    ensures AgreesOn(row, u, req, m)
  {
    if m in SelectedAdd(row, req) {
      AddedIsGone(row, u, req, m);
    } else if m in SelectedIgnore(row, req) {
      IgnoredIsGone(row, u, req, m);
    } else if Hidden(Normalize(row.settings.ignored), m, u) {
      HiddenIsGone(row, u, req, m);
    } else if Gone(row, u, req, m) {
      GoneWasHiddenOrTicked(row, u, req, m);
    }
  }

  ghost predicate ChoiceAgrees(row: Row, u: Upstream, req: Request) {
    forall m :: Candidate(row, u, m) ==> AgreesOn(row, u, req, m)
  }

  /** Ticked names are candidates. */
  lemma TickedAreCandidates(row: Row, u: Upstream, req: Request, m: string)
    requires Fresh(row, u) && (m in SelectedAdd(row, req) || m in SelectedIgnore(row, req))
    ensures Candidate(row, u, m)
  {
    SelectionFacts(row, u, req);
    DetectedIff(row, u, m);
  }

  lemma AgreeingCommas(row: Row, u: Upstream, req: Request)
    requires Fresh(row, u) && ChoiceAgrees(row, u, req)
    ensures CommasHarmless(row, u, req)
  {
    PiecesHaveNoComma(SelectedAdd(row, req));
    forall m | m in SelectedAdd(row, req) && COMMA in m ensures StillHidden(row, u, req, m) {
      TickedAreCandidates(row, u, req, m);
      assert AgreesOn(row, u, req, m);
    }
    forall q | q in Pieces(SelectedAdd(row, req)) ensures !LeftPending(row, req, q) {
      DetectedIff(row, u, q);
      assert Candidate(row, u, q) ==> AgreesOn(row, u, req, q);
    }
  }

  lemma AgreeingPatterns(row: Row, u: Upstream, req: Request)
    requires Fresh(row, u) && ChoiceAgrees(row, u, req)
    ensures PatternsHarmless(row, u, req)
  {
    forall m | m in SelectedIgnore(row, req) && m !in SelectedAdd(row, req) ensures Gone(row, u, req, m) {
      TickedAreCandidates(row, u, req, m);
      assert AgreesOn(row, u, req, m);
    }
    forall p, m | p in SelectedIgnore(row, req) && p !in SelectedAdd(row, req) && LeftPending(row, req, m)
      ensures !Hides(p, m, u)
    {
      DetectedIff(row, u, m);
      assert AgreesOn(row, u, req, m);
      assert Remembered(row, req, p);
    }
    forall e, m | e in Normalize(row.settings.ignored) && Candidate(row, u, m) && Hides(e, m, u)
      ensures Gone(row, u, req, m)
    {
      EntryHides(Normalize(row.settings.ignored), e, m, u);
      assert AgreesOn(row, u, req, m);
    }
  }

  lemma HarmlessIffAgrees(row: Row, u: Upstream, req: Request)
    requires Fresh(row, u)
    ensures CommasHarmless(row, u, req) && PatternsHarmless(row, u, req) <==> ChoiceAgrees(row, u, req)
  {
    if ChoiceAgrees(row, u, req) {
      AgreeingCommas(row, u, req);
      AgreeingPatterns(row, u, req);
    } else if CommasHarmless(row, u, req) && PatternsHarmless(row, u, req) {
      forall m | Candidate(row, u, m) ensures AgreesOn(row, u, req, m) {
        HarmlessAgrees(row, u, req, m);
      }
    }
  }

  /** An offered name stays local, since only names that are not offered can be removed. */
  lemma OfferedLocalStays(row: Row, u: Upstream, req: Request, now: int, m: string)
    requires Fresh(row, u) && m in u.Offered()
    ensures m in Local(Apply(row, req, now)) <==> m in Local(row) || m in Pieces(SelectedAdd(row, req))
  {
    SelectionFacts(row, u, req);
    LocalAfterAnyApply(row, u, req, now);
  }

  predicate TestsAgree(row: Row, u: Upstream, req: Request, now: int, m: string) {
    AddTest(Local(Apply(row, req, now)), NextIgnored(row, req), u)(m) <==>
      AddTest(Local(row), Normalize(row.settings.ignored), u)(m)
      && m !in Normalize(SelectedAdd(row, req) + SelectedIgnore(row, req))
  }

  lemma TestsAgreeIff(row: Row, u: Upstream, req: Request, now: int, m: string)
    requires Fresh(row, u) && m in u.Offered()
    ensures TestsAgree(row, u, req, now, m) <==> (Candidate(row, u, m) ==> AgreesOn(row, u, req, m))
  {
    OfferedLocalStays(row, u, req, now, m);
    ChosenMembers(row, u, req, m);
    StillHiddenIff(row, u, req, m);
  }

  lemma TestsAgreeEverywhere(row: Row, u: Upstream, req: Request, now: int)
    requires Fresh(row, u)
    ensures (forall m :: m in u.Offered() ==> TestsAgree(row, u, req, now, m)) <==> ChoiceAgrees(row, u, req)
  {
    forall m | m in u.Offered()
      ensures TestsAgree(row, u, req, now, m) <==> (Candidate(row, u, m) ==> AgreesOn(row, u, req, m))
    {
      TestsAgreeIff(row, u, req, now, m);
    }
  }

  lemma AddSideIff(row: Row, u: Upstream, req: Request, now: int)
    requires Fresh(row, u)
    ensures Filter(AddTest(Local(Apply(row, req, now)), NextIgnored(row, req), u), u.Offered())
         == Subtract(row.settings.detected, SelectedAdd(row, req) + SelectedIgnore(row, req))
      <==> CommasHarmless(row, u, req) && PatternsHarmless(row, u, req)
  {
    DetectedMinusChosen(row, u, req);
    FilterAfterChoice(
      AddTest(Local(row), Normalize(row.settings.ignored), u),
      AddTest(Local(Apply(row, req, now)), NextIgnored(row, req), u),
      Normalize(SelectedAdd(row, req) + SelectedIgnore(row, req)), u.Offered());
    TestsAgreeEverywhere(row, u, req, now);
    HarmlessIffAgrees(row, u, req);
  }

  // ---------- the law ----------

  lemma StagedAfterApply(row: Row, u: Upstream, req: Request, now: int)
    requires Fresh(row, u)
    ensures var row' := Apply(row, req, now);
      && row'.settings.detected == Subtract(row.settings.detected, SelectedAdd(row, req) + SelectedIgnore(row, req))
      && row'.settings.removed == Subtract(row.settings.removed, SelectedRemove(row, req))
      && Normalize(row'.settings.ignored) == NextIgnored(row, req)
  {
    SelectionFacts(row, u, req);
    NextIgnoredMembers(row, u, req);
    NormalizeNormal(NextIgnored(row, req));
  }

  ghost predicate Harmless(row: Row, u: Upstream, req: Request) {
    PiecesBelong(row, u, req) && CommasHarmless(row, u, req) && PatternsHarmless(row, u, req)
  }

  /** After any request on fresh staged lists, the lists that are left are what a new detection
      against the same upstream computes, as sequences, if and only if the request is harmless. */
  lemma ApplyStaysFreshIff(row: Row, u: Upstream, req: Request, now: int)
    requires Fresh(row, u)
    ensures Fresh(Apply(row, req, now), u) <==> Harmless(row, u, req)
  {
    StagedAfterApply(row, u, req, now);
    RemoveSideIff(row, u, req, now);
    AddSideIff(row, u, req, now);
  }

  function ApplyRun(row: Row, reqs: seq<Request>, now: int): Row
    decreases |reqs|
  {
    if reqs == [] then row else ApplyRun(Apply(row, reqs[0], now), reqs[1..], now)
  }

  predicate FreshThroughout(row: Row, u: Upstream, reqs: seq<Request>, now: int)
    decreases |reqs|
  {
    Fresh(row, u) && (reqs == [] || FreshThroughout(Apply(row, reqs[0], now), u, reqs[1..], now))
  }

  ghost predicate HarmlessRun(row: Row, u: Upstream, reqs: seq<Request>, now: int)
    decreases |reqs|
  {
    reqs == [] || (Harmless(row, u, reqs[0]) && HarmlessRun(Apply(row, reqs[0], now), u, reqs[1..], now))
  }

  /** The staged lists stay fresh through any number of applies exactly if each one is harmless. */
  lemma {:induction false} ApplyRunStaysFreshIff(row: Row, u: Upstream, reqs: seq<Request>, now: int)
    requires Fresh(row, u)
    ensures FreshThroughout(row, u, reqs, now) <==> HarmlessRun(row, u, reqs, now)
    ensures HarmlessRun(row, u, reqs, now) ==> Fresh(ApplyRun(row, reqs, now), u)
    decreases |reqs|
  {
    if reqs != [] {
      ApplyStaysFreshIff(row, u, reqs[0], now);
      if Harmless(row, u, reqs[0]) { ApplyRunStaysFreshIff(Apply(row, reqs[0], now), u, reqs[1..], now); }
    }
  }

  /** Every staged name, to be added or removed. */
  function Everything(row: Row): Request {
    Request(row.settings.detected, [], row.settings.removed)
  }

  lemma EverythingIsSelected(row: Row, u: Upstream)
    requires Fresh(row, u)
    ensures forall m :: m in row.settings.detected ==> m in SelectedAdd(row, Everything(row))
    ensures forall m :: m in row.settings.removed ==> m in SelectedRemove(row, Everything(row))
  {
    var req := Everything(row);
    SelectionFacts(row, u, req);
    IntersectNormal(req.add, row.settings.detected);
    IntersectNormal(req.remove, row.settings.removed);
    SubtractNormal(Intersect(req.remove, row.settings.removed), SelectedAdd(row, req));
    NormalizeNormal(Intersect(req.remove, row.settings.removed));
    NormalizeNormal(SelectedAdd(row, req));
    forall m | m in row.settings.removed ensures m !in SelectedAdd(row, req) {
      assert RemoveTest(u)(m);
    }
  }

  lemma SubtractAll(base: seq<string>, chosen: seq<string>)
    requires Normal(base) && forall m :: m in base ==> m in Normalize(chosen)
    ensures Subtract(base, chosen) == []
  {
    NormalizeNormal(base);
    FilterAll(Outside(Normalize(chosen)), base);
  }

  lemma NothingStaysStaged(row: Row, u: Upstream, now: int)
    requires Fresh(row, u)
    ensures var row' := Apply(row, Everything(row), now); row'.settings.detected == [] && row'.settings.removed == []
  {
    var req := Everything(row);
    SelectionFacts(row, u, req);
    EverythingIsSelected(row, u);
    StagedAfterApply(row, u, req, now);
    CleanOfClean(SelectedAdd(row, req) + SelectedIgnore(row, req));
    NormalizeNormal(SelectedRemove(row, req));
    SubtractAll(row.settings.detected, SelectedAdd(row, req) + SelectedIgnore(row, req));
    SubtractAll(row.settings.removed, SelectedRemove(row, req));
  }

  /** Applying everything that is staged leaves nothing for a new detection to find, exactly if
      that request is harmless. */
  lemma ApplyEverythingSettlesIff(row: Row, u: Upstream, now: int)
    requires Fresh(row, u)
    ensures var row' := Apply(row, Everything(row), now);
      DetectAdd(row', u) == [] && DetectRemove(row', u) == [] <==> Harmless(row, u, Everything(row))
  {
    NothingStaysStaged(row, u, now);
    ApplyStaysFreshIff(row, u, Everything(row), now);
  }

  // ---------- ordinary and other names ----------

  /** With an upstream whose names hold no comma and do not start like a pattern, every request is harmless. */
  lemma OrdinaryNamesAreHarmless(row: Row, u: Upstream, req: Request)
    requires Fresh(row, u) && forall m :: m in u.Offered() ==> COMMA !in m && !IsPattern(m)
    ensures Harmless(row, u, req)
  {
    SelectionFacts(row, u, req);
    PlainPieces(SelectedAdd(row, req));
    forall m | m in SelectedIgnore(row, req) ensures m in u.Offered() { TickedAreCandidates(row, u, req, m); }
  }

  /** An added name with a comma is not in the list that is read back, so a new detection
      reports it again unless the ignore list still hides it. */
  lemma CommaNameReappears(row: Row, u: Upstream, req: Request, now: int, m: string)
    requires Fresh(row, u) && m in SelectedAdd(row, req) && COMMA in m && !StillHidden(row, u, req, m)
    ensures m in DetectAdd(Apply(row, req, now), u) && m !in Apply(row, req, now).settings.detected
  {
    SelectionFacts(row, u, req);
    StagedAfterApply(row, u, req, now);
    StillHiddenIff(row, u, req, m);
    LocalHasNoComma(Apply(row, req, now));
    SubtractNormal(row.settings.detected, SelectedAdd(row, req) + SelectedIgnore(row, req));
    CleanOfClean(SelectedAdd(row, req) + SelectedIgnore(row, req));
  }

  /** Ticking a pattern-like name to be ignored makes every other pending name it matches
      disappear from a new detection although that name is still staged. */
  lemma PatternNameTakesOver(row: Row, u: Upstream, p: string, m: string, now: int)
    requires Fresh(row, u) && p in row.settings.detected && m in row.settings.detected && p != m
    requires IsPattern(p) && Hides(p, m, u)
    ensures !Fresh(Apply(row, Request([], [p], []), now), u)
  {
    var req := Request([], [p], []);
    SelectionFacts(row, u, req);
    assert Tidy(p) && [p][0] == p;
    NormalizeNormal([p]);
    IntersectNormal([p], row.settings.detected);
    assert LeftPending(row, req, m);
    ApplyStaysFreshIff(row, u, req, now);
  }

  /** Concretely: two pending names, one of them "regex:" followed by a pattern that matches everything. */
  lemma PatternNameCounterexample(p: string, m: string) returns (row: Row, u: Upstream, req: Request)
    requires Tidy(p) && Tidy(m) && IsPattern(p) && p != m
    ensures Fresh(row, u) && req == Request([], [p], []) && !Fresh(Apply(row, req, 0), u)
  {
    u := Upstream([p, m], map[], (_, _) => true);
    row := Row("", Settings([p, m], [], [], 0, false));
    req := Request([], [p], []);
    PairIsNormal(p, m);
    FirstDetectionIsFresh(u);
    PatternNameTakesOver(row, u, p, m, 0);
  }

  /** Concretely: a single pending name with a comma, such as "a,b", that is added. */
  lemma CommaNameCounterexample(m: string) returns (row: Row, u: Upstream, req: Request)
    requires Tidy(m) && COMMA in m
    ensures Fresh(row, u) && req == Request([m], [], [])
    ensures m in DetectAdd(Apply(row, req, 0), u) && !Fresh(Apply(row, req, 0), u)
  {
    u := Upstream([m], map[], (_, _) => false);
    row := Row("", Settings([m], [], [], 0, false));
    req := Request([m], [], []);
    assert [m][0] == m;
    NormalizeNormal([m]);
    FirstDetectionIsFresh(u);
    IntersectNormal([m], row.settings.detected);
    CommaNameReappears(row, u, req, 0, m);
  }
}
