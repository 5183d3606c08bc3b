/**
Names with commas. A model list is stored joined by commas, so an added name
that contains one comes back in pieces.
*/
module StoredNames {
  import opened ModelNames
  import opened UpstreamSync
  import Text

  const COMMA := ','

  /** What the names become once they are stored and read again. */
  function Pieces(names: seq<string>): seq<string> {
    if names == [] then [] else Clean(Text.Split(names[0], COMMA)) + Pieces(names[1..])
  }

  // ---------- reading a stored list ----------

  lemma {:induction false} CleanAppend(xs: seq<string>, ys: seq<string>)
    ensures Clean(xs + ys) == Clean(xs) + Clean(ys)
    decreases |xs|
  {
    if xs == [] {
      assert xs + ys == ys;
    } else {
      CleanAppend(xs[1..], ys);
      assert (xs + ys)[1..] == xs[1..] + ys;
    }
  }

  /** The first character goes to the first part, or ends an empty one. */
  lemma SplitUnfolds(s: string, first: seq<string>, others: seq<string>)
    requires s != "" && first != [] && Text.Split(s[1..], COMMA) == first + others
    ensures Text.Split(s, COMMA) == (if s[0] == COMMA then [""] + first else [[s[0]] + first[0]] + first[1..]) + others
  {
    Regroup([s[0]], first, others);
  }

  lemma Regroup(x: string, first: seq<string>, others: seq<string>)
    requires first != []
    ensures [""] + (first + others) == [""] + first + others
    ensures [x + (first + others)[0]] + (first + others)[1..] == [x + first[0]] + first[1..] + others
  {
    assert (first + others)[1..] == first[1..] + others;
  }

  lemma {:induction false} SplitConcat(a: string, b: string)
    ensures Text.Split(a + [COMMA] + b, COMMA) == Text.Split(a, COMMA) + Text.Split(b, COMMA)
    decreases |a|
  {
    if a == "" {
      assert a + [COMMA] + b == [COMMA] + b && ([COMMA] + b)[1..] == b;
    } else {
      SplitConcat(a[1..], b);
      var s := a + [COMMA] + b;
      assert s[0] == a[0] && s[1..] == a[1..] + [COMMA] + b;
      SplitUnfolds(s, Text.Split(a[1..], COMMA), Text.Split(b, COMMA));
      SplitUnfolds(a, Text.Split(a[1..], COMMA), []);
    }
  }

  lemma {:induction false} JoinedPieces(names: seq<string>)
    requires names != []
    ensures Clean(Text.Split(Text.Join(names, COMMA), COMMA)) == Pieces(names)
    decreases |names|
  {
    if |names| == 1 {
      assert names[1..] == [];
    } else {
      JoinedPieces(names[1..]);
      SplitConcat(names[0], Text.Join(names[1..], COMMA));
      CleanAppend(Text.Split(names[0], COMMA), Text.Split(Text.Join(names[1..], COMMA), COMMA));
    }
  }

  lemma {:induction false} LeadingCommas(s: string)
    ensures Clean(Text.Split(Text.TrimLeft(s, Text.Is(COMMA)), COMMA)) == Clean(Text.Split(s, COMMA))
    decreases |s|
  {
    if s != "" && s[0] == COMMA {
      LeadingCommas(s[1..]);
      CleanAppend([""], Text.Split(s[1..], COMMA));
    }
  }

  lemma {:induction false} TrailingCommas(s: string)
    ensures Clean(Text.Split(Text.TrimRight(s, Text.Is(COMMA)), COMMA)) == Clean(Text.Split(s, COMMA))
    decreases |s|
  {
    if s != "" && s[|s| - 1] == COMMA {
      var init := s[..|s| - 1];
      TrailingCommas(init);
      SplitConcat(init, "");
      assert s == init + [COMMA] + "";
      CleanAppend(Text.Split(init, COMMA), [""]);
    }
  }

  /** Cutting commas off both ends changes nothing about the names that are read. */
  lemma ReadIsSplit(text: string)
    ensures Clean(Text.ReadList(text, COMMA)) == Clean(Text.Split(text, COMMA))
  {
    LeadingCommas(text);
    TrailingCommas(Text.TrimLeft(text, Text.Is(COMMA)));
  }

  lemma {:induction false} PlainPieces(names: seq<string>)
    requires forall m :: m in names ==> Tidy(m) && COMMA !in m
    ensures Pieces(names) == names
    decreases |names|
  {
    if names != [] {
      assert names[0] in names && forall m :: m in names[1..] ==> m in names;
      Text.SplitFirst(names[0], "", COMMA);
      CleanOfClean([names[0]]);
      PlainPieces(names[1..]);
      assert names == [names[0]] + names[1..];
    }
  }

  lemma {:induction false} PiecesAppend(xs: seq<string>, ys: seq<string>)
    ensures Pieces(xs + ys) == Pieces(xs) + Pieces(ys)
    decreases |xs|
  {
    if xs == [] {
      assert xs + ys == ys;
    } else {
      PiecesAppend(xs[1..], ys);
      assert (xs + ys)[1..] == xs[1..] + ys;
    }
  }

  /** Removing repetitions keeps what comes first as it is. */
  lemma {:induction false} UniqKeepsPrefix(xs: seq<string>, ys: seq<string>)
    requires Distinct(xs)
    ensures xs <= Uniq(xs + ys)
    decreases |ys|
  {
    if ys == [] {
      assert xs + ys == xs;
    } else {
      var init := ys[..|ys| - 1];
      UniqKeepsPrefix(xs, init);
      assert (xs + ys)[..|xs + ys| - 1] == xs + init;
    }
  }

  // ---------- the list after any apply ----------

  /** The local names that are not removed. */
  function Remaining(row: Row, req: Request): seq<string> {
    Filter(Outside(SelectedRemove(row, req)), Local(row))
  }

  lemma StoredIsPieces(names: seq<string>, settings: Settings)
    ensures Local(Row(Text.Join(names, COMMA), settings)) == Uniq(Pieces(names))
  {
    ReadIsSplit(Text.Join(names, COMMA));
    if names != [] {
      JoinedPieces(names);
    }
  }

  /** A name that is a piece of itself only: the remaining local names stay whole. */
  lemma RemainingIsPlain(row: Row, req: Request)
    ensures Normal(Remaining(row, req)) && Pieces(Remaining(row, req)) == Remaining(row, req)
  {
    LocalHasNoComma(row);
    FilterNormal(Outside(SelectedRemove(row, req)), Local(row));
    PlainPieces(Remaining(row, req));
  }

  lemma LocalAfterAnyApply(row: Row, u: Upstream, req: Request, now: int)
    requires Fresh(row, u)
    ensures Local(Apply(row, req, now)) == Uniq(Remaining(row, req) + Pieces(SelectedAdd(row, req)))
  {
    NextModelsShape(row, u, req);
    RemainingIsPlain(row, req);
    PiecesAppend(Remaining(row, req), SelectedAdd(row, req));
    StoredIsPieces(NextModels(row, req), Apply(row, req, now).settings);
    if Local(row) == NextModels(row, req) {
      LocalHasNoComma(row);
      PlainPieces(Local(row));
    }
  }

  /** A name without a comma is one of its own pieces. */
  lemma {:induction false} PlainNameIsPiece(names: seq<string>, m: string)
    requires m in names && Tidy(m) && COMMA !in m
    ensures m in Pieces(names)
    decreases |names|
  {
    if names[0] == m {
      Text.SplitFirst(m, "", COMMA);
      CleanOfClean([m]);
      assert Clean(Text.Split(m, COMMA)) == [m];
    } else {
      PlainNameIsPiece(names[1..], m);
    }
  }

  lemma {:induction false} PiecesHaveNoComma(names: seq<string>)
    ensures forall q :: q in Pieces(names) ==> COMMA !in q
    decreases |names|
  {
    if names != [] {
      Text.SplitParts(names[0], COMMA);
      CleanKeepsOut(Text.Split(names[0], COMMA), COMMA);
      PiecesHaveNoComma(names[1..]);
    }
  }

  lemma {:induction false} PiecesMembers(names: seq<string>, q: string)
    ensures q in Pieces(names) <==> exists i :: 0 <= i < |names| && q in Normalize(Text.Split(names[i], COMMA))
    decreases |names|
  {
    if names != [] {
      PiecesMembers(names[1..], q);
      assert forall i :: 0 <= i < |names[1..]| ==> names[1..][i] == names[i + 1];
      if i :| 0 <= i < |names| && q in Normalize(Text.Split(names[i], COMMA)) {
        if i > 0 { assert q in Normalize(Text.Split(names[1..][i - 1], COMMA)); }
      }
    }
  }

  /** The name is a comma-separated piece of a name the request adds. */
  ghost predicate PieceOfAdded(row: Row, req: Request, q: string) {
    exists m :: Adds(row, req, m) && q in Normalize(Text.Split(m, COMMA))
  }

  lemma PlainSelf(m: string)
    requires Tidy(m) && COMMA !in m
    ensures Clean(Text.Split(m, COMMA)) == [m]
  {
    Text.SplitFirst(m, "", COMMA);
    CleanOfClean([m]);
  }

  /** After any apply to any row, a name is local exactly if it was and is not both ticked for
      removal and staged for it, or if it is a piece of an added name. In particular a local name
      that is not ticked for removal stays. */
  lemma LocalAfterApplyIff(row: Row, req: Request, now: int, q: string)
    ensures q in Local(Apply(row, req, now)) <==> (q in Local(row) && !Removes(row, req, q)) || PieceOfAdded(row, req, q)
    ensures q in Local(row) && q !in Normalize(req.remove) ==> q in Local(Apply(row, req, now))
  {
    var next := NextModels(row, req);
    LocalHasNoComma(row);
    if next == Local(row) {
      SameModelsPieces(row, req, q);
    } else {
      StoredIsPieces(next, Apply(row, req, now).settings);
      NextPieces(row, req, q);
    }
  }

  /** The pieces of the next list: the names that stay, and the pieces of the added ones. */
  lemma NextPieces(row: Row, req: Request, q: string)
    ensures q in Pieces(NextModels(row, req)) <==> (q in Local(row) && !Removes(row, req, q)) || PieceOfAdded(row, req, q)
  {
    var next := NextModels(row, req);
    LocalHasNoComma(row);
    PiecesMembers(next, q);
    NextModelsMembers(row, req, q);
    if q in Pieces(next) {
      var i :| 0 <= i < |next| && q in Normalize(Text.Split(next[i], COMMA));
      NextModelsMembers(row, req, next[i]);
      if !Adds(row, req, next[i]) { PlainSelf(next[i]); }
    }
    if q in Local(row) && !Removes(row, req, q) {
      PlainNameIsPiece(next, q);
    }
    if PieceOfAdded(row, req, q) {
      var m :| Adds(row, req, m) && q in Normalize(Text.Split(m, COMMA));
      NextModelsMembers(row, req, m);
      var i :| 0 <= i < |next| && next[i] == m;
    }
  }

  lemma SameModelsPieces(row: Row, req: Request, q: string)
    requires NextModels(row, req) == Local(row)
    ensures q in Local(row) <==> (q in Local(row) && !Removes(row, req, q)) || PieceOfAdded(row, req, q)
  {
    LocalHasNoComma(row);
    PlainPieces(Local(row));
    NextPieces(row, req, q);
  }
}
