/** The ordered-set algebra on lists of model names. */
module ModelNames {
  import Text

  /** lo.Filter */
  function Filter<T(!new)>(keep: T -> bool, xs: seq<T>): (r: seq<T>)
    ensures forall x :: x in r <==> x in xs && keep(x)
  {
    if xs == [] then []
    else if keep(xs[0]) then [xs[0]] + Filter(keep, xs[1..])
    else Filter(keep, xs[1..])
  }

  predicate Tidy(m: string) {
    m != "" && Text.Trimmed(m, Text.IsSpace)
  }

  /** lo.FilterMap with trimming: the non-blank names, trimmed. */
  function Clean(names: seq<string>): (r: seq<string>)
    ensures forall m :: m in r ==> Tidy(m)
  {
    if names == [] then []
    else
      var m := Text.TrimSpace(names[0]);
      Text.TrimResult(names[0], Text.IsSpace);
      if m == "" then Clean(names[1..]) else [m] + Clean(names[1..])
  }

  predicate Distinct<T(==)>(xs: seq<T>) {
    forall i, j :: 0 <= i < j < |xs| ==> xs[i] != xs[j]
  }

  /** lo.Uniq: first occurrences, in order */
  function Uniq(xs: seq<string>): (r: seq<string>)
    ensures forall x :: x in r <==> x in xs
    ensures Distinct(r)
    ensures Distinct(xs) ==> r == xs
  {
    if xs == [] then []
    else
      var last := xs[|xs| - 1];
      var rest := Uniq(xs[..|xs| - 1]);
      assert xs == xs[..|xs| - 1] + [last];
      if last in rest then rest else rest + [last]
  }

  /** Lists every helper returns: trimmed, non-blank, without repetition. */
  predicate Normal(xs: seq<string>) {
    Distinct(xs) && forall m :: m in xs ==> Tidy(m)
  }

  function Normalize(names: seq<string>): (r: seq<string>)
    ensures Normal(r)
    ensures forall m :: m in r <==> m in Clean(names)
  {
    Uniq(Clean(names))
  }

  /** A name is in the normalized list exactly if it is not empty and some entry trims to it. */
  lemma {:induction false} NormalizeMembers(names: seq<string>, m: string)
    ensures m in Normalize(names) <==> m != "" && exists i :: 0 <= i < |names| && Text.TrimSpace(names[i]) == m
    decreases |names|
  {
    if names != [] {
      NormalizeMembers(names[1..], m);
      assert forall i :: 0 <= i < |names[1..]| ==> names[1..][i] == names[i + 1];
      if m != "" && exists i :: 0 <= i < |names| && Text.TrimSpace(names[i]) == m {
        var i :| 0 <= i < |names| && Text.TrimSpace(names[i]) == m;
        if i > 0 { assert Text.TrimSpace(names[1..][i - 1]) == m; }
      }
    }
  }

  lemma {:induction false} CleanOfClean(xs: seq<string>)
    requires forall m :: m in xs ==> Tidy(m)
    ensures Clean(xs) == xs
    decreases |xs|
  {
    if xs != [] {
      assert forall m :: m in xs[1..] ==> m in xs;
      CleanOfClean(xs[1..]);
      assert xs == [xs[0]] + xs[1..] && xs[0] in xs;
    }
  }

  lemma NormalizeNormal(xs: seq<string>)
    requires Normal(xs)
    ensures Normalize(xs) == xs
  {
    CleanOfClean(xs);
  }

  function Outside(xs: seq<string>): string -> bool {
    m => m !in xs
  }

  function Within(xs: seq<string>): string -> bool {
    m => m in xs
  }

  function Merge(base: seq<string>, appended: seq<string>): seq<string> {
    Normalize(base) + Filter(Outside(Normalize(base)), Normalize(appended))
  }

  function Subtract(base: seq<string>, removed: seq<string>): seq<string> {
    Filter(Outside(Normalize(removed)), Normalize(base))
  }

  function Intersect(base: seq<string>, allowed: seq<string>): seq<string> {
    Filter(Within(Normalize(allowed)), Normalize(base))
  }

  /** An added name stays even if it is also listed for removal. */
  function ApplySelected(origin: seq<string>, add: seq<string>, remove: seq<string>): seq<string> {
    Subtract(Merge(origin, Normalize(add)), Subtract(Normalize(remove), Normalize(add)))
  }

  // ---------- filters ----------

  lemma {:induction false} FilterDistinct<T(!new)>(keep: T -> bool, xs: seq<T>)
    requires Distinct(xs)
    ensures Distinct(Filter(keep, xs))
    decreases |xs|
  {
    if xs != [] {
      FilterDistinct(keep, xs[1..]);
      assert xs[0] !in xs[1..];
    }
  }

  lemma FilterNormal(keep: string -> bool, xs: seq<string>)
    requires Normal(xs)
    ensures Normal(Filter(keep, xs))
  {
    FilterDistinct(keep, xs);
  }

  lemma {:induction false} FilterAppend<T(!new)>(keep: T -> bool, xs: seq<T>, ys: seq<T>)
    ensures Filter(keep, xs + ys) == Filter(keep, xs) + Filter(keep, ys)
    decreases |xs|
  {
    if xs == [] {
      assert xs + ys == ys;
    } else {
      FilterAppend(keep, xs[1..], ys);
      assert (xs + ys)[1..] == xs[1..] + ys;
    }
  }

  /** Two filters of one list agree exactly when they keep the same elements of it. */
  lemma {:induction false} FilterAgree<T(!new)>(p: T -> bool, q: T -> bool, xs: seq<T>)
    ensures Filter(p, xs) == Filter(q, xs) <==> forall x :: x in xs ==> p(x) == q(x)
    decreases |xs|
  {
    if Filter(p, xs) == Filter(q, xs) {
      forall x | x in xs ensures p(x) == q(x) {
        assert x in Filter(p, xs) <==> x in Filter(q, xs);
      }
    } else {
      FilterAgree(p, q, xs[1..]);
    }
  }

  lemma {:induction false} FilterTwice<T(!new)>(p: T -> bool, q: T -> bool, r: T -> bool, xs: seq<T>)
    requires forall x :: x in xs ==> (r(x) <==> p(x) && q(x))
    ensures Filter(p, Filter(q, xs)) == Filter(r, xs)
    decreases |xs|
  {
    if xs != [] {
      assert xs[0] in xs && forall x :: x in xs[1..] ==> x in xs;
      FilterTwice(p, q, r, xs[1..]);
      if q(xs[0]) {
        assert ([xs[0]] + Filter(q, xs[1..]))[1..] == Filter(q, xs[1..]);
      }
    }
  }

  lemma {:induction false} FilterAll<T(!new)>(p: T -> bool, xs: seq<T>)
    ensures (forall x :: x in xs ==> p(x)) ==> Filter(p, xs) == xs
    ensures (forall x :: x in xs ==> !p(x)) ==> Filter(p, xs) == []
    decreases |xs|
  {
    if xs != [] {
      FilterAll(p, xs[1..]);
      assert [xs[0]] + xs[1..] == xs;
    }
  }

  lemma MergeNormal(base: seq<string>, appended: seq<string>)
    ensures Normal(Merge(base, appended))
    ensures forall m :: m in Merge(base, appended) <==> m in Normalize(base) || m in Normalize(appended)
  {
    var b, a := Normalize(base), Filter(Outside(Normalize(base)), Normalize(appended));
    FilterNormal(Outside(Normalize(base)), Normalize(appended));
    DistinctAppend(b, a);
  }

  lemma DistinctAppend(xs: seq<string>, ys: seq<string>)
    requires Distinct(xs) && Distinct(ys) && forall y :: y in ys ==> y !in xs
    ensures Distinct(xs + ys)
  {
    forall i, j | 0 <= i < j < |xs + ys|
      ensures (xs + ys)[i] != (xs + ys)[j]
    {
      if i < |xs| <= j {
        assert ys[j - |xs|] in ys && xs[i] in xs;
      }
    }
  }

  lemma MergeStep(start: seq<string>, extra: seq<string>, i: nat)
    requires i < |extra| && Distinct(extra)
    ensures Filter(Outside(start), extra[..i + 1])
         == Filter(Outside(start), extra[..i]) + (if extra[i] in start then [] else [extra[i]])
    ensures extra[i] !in Filter(Outside(start), extra[..i])
  {
    FilterAppend(Outside(start), extra[..i], [extra[i]]);
    assert extra[..i + 1] == extra[..i] + [extra[i]];
  }

  /** The loop form: a set of seen names decides what is appended. */
  method AppendUnseen(start: seq<string>, extra: seq<string>) returns (merged: seq<string>)
    requires Distinct(extra)
    ensures merged == start + Filter(Outside(start), extra)
  {
    merged := start;
    var seen := set m | m in merged;
    var i := 0;
    while i < |extra|
      invariant 0 <= i <= |extra|
      invariant merged == start + Filter(Outside(start), extra[..i])
      invariant forall m :: m in seen <==> m in merged
    {
      MergeStep(start, extra, i);
      if extra[i] !in seen {
        seen := seen + {extra[i]};
        merged := merged + [extra[i]];
      }
      i := i + 1;
    }
    assert extra[..|extra|] == extra;
  }

  method MergeModelNames(base: seq<string>, appended: seq<string>) returns (merged: seq<string>)
    ensures merged == Merge(base, appended)
  {
    merged := AppendUnseen(Normalize(base), Normalize(appended));
  }
}
