/** The string functions of Go's `strings` package that stored lists go through. */
module Text {

  /** unicode.IsSpace */
  predicate IsSpace(c: char) {
    var x := c as int;
    || 9 <= x <= 13 || x == 0x20 || x == 0x85 || x == 0xA0 || x == 0x1680
    || 0x2000 <= x <= 0x200A || x == 0x2028 || x == 0x2029 || x == 0x202F || x == 0x205F || x == 0x3000
  }

  /** The white space of Unicode, one code point after the other. */
  lemma SpacesAre(c: char)
    ensures IsSpace(c) <==> c as int in [
      0x09, 0x0A, 0x0B, 0x0C, 0x0D, 0x20, 0x85, 0xA0, 0x1680, 0x2000, 0x2001, 0x2002, 0x2003, 0x2004, 0x2005,
      0x2006, 0x2007, 0x2008, 0x2009, 0x200A, 0x2028, 0x2029, 0x202F, 0x205F, 0x3000]
  {
  }

  function TrimLeft(s: string, cut: char -> bool): string {
    if s != "" && cut(s[0]) then TrimLeft(s[1..], cut) else s
  }

  function TrimRight(s: string, cut: char -> bool): string {
    if s != "" && cut(s[|s| - 1]) then TrimRight(s[..|s| - 1], cut) else s
  }

  /** Neither end of the string is a character to cut. */
  predicate Trimmed(s: string, cut: char -> bool) {
    s != "" ==> !cut(s[0]) && !cut(s[|s| - 1])
  }

  function TrimBy(s: string, cut: char -> bool): string {
    TrimRight(TrimLeft(s, cut), cut)
  }

  lemma {:induction false} TrimLeftStart(s: string, cut: char -> bool)
    ensures TrimLeft(s, cut) != "" ==> !cut(TrimLeft(s, cut)[0])
    ensures forall c :: c in TrimLeft(s, cut) ==> c in s
    decreases |s|
  {
    if s != "" && cut(s[0]) { TrimLeftStart(s[1..], cut); }
  }

  lemma {:induction false} TrimRightPrefix(s: string, cut: char -> bool)
    ensures TrimRight(s, cut) <= s
    ensures TrimRight(s, cut) != "" ==> !cut(TrimRight(s, cut)[|TrimRight(s, cut)| - 1])
    decreases |s|
  {
    if s != "" && cut(s[|s| - 1]) { TrimRightPrefix(s[..|s| - 1], cut); }
  }

  /** What trimming leaves: trimmed text made of characters of the original. */
  lemma TrimResult(s: string, cut: char -> bool)
    ensures Trimmed(TrimBy(s, cut), cut)
    ensures forall c :: c in TrimBy(s, cut) ==> c in s
  {
    TrimLeftStart(s, cut);
    TrimRightPrefix(TrimLeft(s, cut), cut);
  }

  lemma {:induction false} LeftCut(s: string, cut: char -> bool) returns (a: nat)
    ensures a <= |s| && TrimLeft(s, cut) == s[a..] && forall i :: 0 <= i < a ==> cut(s[i])
    decreases |s|
  {
    a := 0;
    if s != "" && cut(s[0]) {
      a := LeftCut(s[1..], cut);
      assert forall i :: 0 < i <= a ==> s[i] == s[1..][i - 1];
      a := a + 1;
    }
  }

  lemma {:induction false} RightCut(s: string, cut: char -> bool) returns (b: nat)
    ensures b <= |s| && TrimRight(s, cut) == s[..b] && forall i :: b <= i < |s| ==> cut(s[i])
    decreases |s|
  {
    b := |s|;
    if s != "" && cut(s[|s| - 1]) {
      b := RightCut(s[..|s| - 1], cut);
    }
  }

  /** Trimming takes away characters to cut at both ends, as many as there are, and nothing else. */
  lemma TrimIsExact(s: string, cut: char -> bool) returns (a: nat, b: nat)
    ensures a <= b <= |s| && TrimBy(s, cut) == s[a..b] && Trimmed(s[a..b], cut)
    ensures forall i :: 0 <= i < a || b <= i < |s| ==> cut(s[i])
  {
    TrimResult(s, cut);
    a := LeftCut(s, cut);
    var c := RightCut(s[a..], cut);
    b := a + c;
    assert forall i :: b <= i < |s| ==> s[i] == s[a..][i - a];
  }

  /** strings.TrimSpace */
  function TrimSpace(s: string): string {
    TrimBy(s, IsSpace)
  }

  function Is(sep: char): char -> bool {
    c => c == sep
  }

  /** strings.Trim with a one-character cutset */
  function Trim(s: string, sep: char): string {
    TrimBy(s, Is(sep))
  }

  /** strings.Join with a one-character separator */
  function Join(parts: seq<string>, sep: char): string {
    if |parts| == 0 then ""
    else if |parts| == 1 then parts[0]
    else parts[0] + [sep] + Join(parts[1..], sep)
  }

  /** strings.Split with a one-character separator */
  function Split(s: string, sep: char): (parts: seq<string>)
    ensures |parts| >= 1
  {
    if s == "" then [""]
    else
      var rest := Split(s[1..], sep);
      if s[0] == sep then [""] + rest else [[s[0]] + rest[0]] + rest[1..]
  }

  lemma {:induction false} SplitParts(s: string, sep: char)
    ensures forall p :: p in Split(s, sep) ==> sep !in p
    decreases |s|
  {
    if s != "" {
      SplitParts(s[1..], sep);
      assert Split(s[1..], sep)[0] in Split(s[1..], sep);
    }
  }

  lemma {:induction false} SplitFirst(a: string, b: string, sep: char)
    requires sep !in a
    ensures Split(a + [sep] + b, sep) == [a] + Split(b, sep)
    ensures Split(a, sep) == [a]
    decreases |a|
  {
    if a == "" {
      assert a + [sep] + b == [sep] + b;
      assert ([sep] + b)[1..] == b;
    } else {
      SplitFirst(a[1..], b, sep);
      assert (a + [sep] + b)[1..] == a[1..] + [sep] + b;
      assert [a[0]] + a[1..] == a;
    }
  }

  lemma {:induction false} SplitJoin(parts: seq<string>, sep: char)
    requires parts != [] && forall p :: p in parts ==> sep !in p
    ensures Split(Join(parts, sep), sep) == parts
    decreases |parts|
  {
    if |parts| == 1 {
      SplitFirst(parts[0], "", sep);
    } else {
      SplitJoin(parts[1..], sep);
      SplitFirst(parts[0], Join(parts[1..], sep), sep);
      assert [parts[0]] + parts[1..] == parts;
    }
  }

  /** A joined list keeps its ends unless the first or last part is empty. */
  lemma JoinEnds(parts: seq<string>, sep: char)
    requires parts != [] && forall p :: p in parts ==> sep !in p
    ensures parts[0] != "" && parts[|parts| - 1] != "" ==>
      Join(parts, sep) != "" && Join(parts, sep)[0] == parts[0][0] && Trimmed(Join(parts, sep), Is(sep))
  {
    if parts[0] != "" && parts[|parts| - 1] != "" {
      assert parts[0][0] in parts[0];
      assert parts[|parts| - 1][|parts[|parts| - 1]| - 1] in parts[|parts| - 1];
      if |parts| > 1 {
        JoinLast(parts, sep);
      }
    }
  }

  lemma {:induction false} JoinLast(parts: seq<string>, sep: char)
    requires |parts| > 1
    ensures Join(parts, sep) == Join(parts[..|parts| - 1], sep) + [sep] + parts[|parts| - 1]
    decreases |parts|
  {
    if |parts| > 2 {
      JoinLast(parts[1..], sep);
      assert parts[1..][..|parts| - 2] == parts[..|parts| - 1][1..];
    } else {
      assert parts[1..][0] == parts[1];
    }
  }

  /** The reading side of a stored list: nothing for the empty text, otherwise the
      parts between separators once separators at both ends are cut off. */
  function ReadList(text: string, sep: char): seq<string> {
    if text == "" then [] else Split(Trim(text, sep), sep)
  }

  lemma SplitHeadEmpty(s: string, sep: char)
    ensures Split(s, sep)[0] == "" <==> s == "" || s[0] == sep
  {
  }

  lemma {:induction false} SplitLastEmpty(s: string, sep: char)
    ensures Split(s, sep)[|Split(s, sep)| - 1] == "" <==> s == "" || s[|s| - 1] == sep
    decreases |s|
  {
    if s != "" {
      SplitLastEmpty(s[1..], sep);
    }
  }

  /** A list that reads back must look like this. */
  lemma ReadsBackOnly(parts: seq<string>, sep: char)
    requires parts != [] && ReadList(Join(parts, sep), sep) == parts
    ensures parts[0] != "" && parts[|parts| - 1] != "" && forall p :: p in parts ==> sep !in p
  {
    var text := Join(parts, sep);
    var core := Trim(text, sep);
    TrimResult(text, Is(sep));
    SplitParts(core, sep);
    SplitHeadEmpty(core, sep);
    SplitLastEmpty(core, sep);
  }

  lemma ReadsBack(parts: seq<string>, sep: char)
    requires parts != [] && parts[0] != "" && parts[|parts| - 1] != "" && forall p :: p in parts ==> sep !in p
    ensures ReadList(Join(parts, sep), sep) == parts
  {
    JoinEnds(parts, sep);
    SplitJoin(parts, sep);
  }

  /** Writing a list and reading it back returns the same list exactly when no part contains
      the separator and neither the first nor the last part is empty. */
  lemma ListRoundTrip(parts: seq<string>, sep: char)
    ensures ReadList(Join(parts, sep), sep) == parts
      <==> parts == [] || (parts[0] != "" && parts[|parts| - 1] != "" && forall p :: p in parts ==> sep !in p)
  {
    if parts != [] {
      if ReadList(Join(parts, sep), sep) == parts {
        ReadsBackOnly(parts, sep);
      } else if parts[0] != "" && parts[|parts| - 1] != "" && forall p :: p in parts ==> sep !in p {
        ReadsBack(parts, sep);
      }
    }
  }
}
