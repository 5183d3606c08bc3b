/** Which announcements of a new list are e-mailed, given the list it replaces. */
module Announcements {

  datatype Item = Item(content: string, extra: string, publishDate: string, kind: string)

  const NUL: char := '\0'

  function Key(item: Item): string {
    item.content + [NUL] + item.extra + [NUL] + item.publishDate + [NUL] + item.kind
  }

  function Keys(items: seq<Item>): seq<string> { seq(|items|, i requires 0 <= i < |items| => Key(items[i])) }

  /** How often a key occurs among the first `n` items. */
  function Count(items: seq<Item>, n: nat, key: string): nat
    requires n <= |items|
  {
    if n == 0 then 0 else Count(items, n - 1, key) + (if Key(items[n - 1]) == key then 1 else 0)
  }

  /** The item at `i` is new when the earlier items with its key use up those of the old list. */
  predicate IsNew(before: seq<Item>, after: seq<Item>, i: nat)
    requires i < |after|
  {
    Count(after, i, Key(after[i])) >= Count(before, |before|, Key(after[i]))
  }

  /** The items among the first `n` that are new, in order. */
  function NewItems(before: seq<Item>, after: seq<Item>, n: nat): seq<Item>
    requires n <= |after|
  {
    if n == 0 then []
    else NewItems(before, after, n - 1) + (if IsNew(before, after, n - 1) then [after[n - 1]] else [])
  }

  /** A missing entry reads as zero. */
  function Lookup(counts: map<string, int>, key: string): int { if key in counts then counts[key] else 0 }

  /** What is left of `have` when `used` are taken away. */
  function Left(have: nat, used: nat): nat { if have > used then have - used else 0 }

  method CountKeys(items: seq<Item>) returns (counts: map<string, int>)
    ensures forall k :: Lookup(counts, k) == Count(items, |items|, k)
  {
    counts := map[];
    for i := 0 to |items|
      invariant forall k :: Lookup(counts, k) == Count(items, i, k)
    {
      var key := Key(items[i]);
      counts := counts[key := Lookup(counts, key) + 1];
    }
  }

  /** The counters hold what the first `n` new items have left of the old ones. */
  ghost predicate Tracks(counts: map<string, int>, before: seq<Item>, after: seq<Item>, n: nat)
    requires n <= |after|
  {
    forall k :: Lookup(counts, k) == Left(Count(before, |before|, k), Count(after, n, k))
  }

  lemma TracksStep(counts: map<string, int>, before: seq<Item>, after: seq<Item>, i: nat)
    requires i < |after| && Tracks(counts, before, after, i)
    ensures IsNew(before, after, i) <==> Lookup(counts, Key(after[i])) == 0
    ensures var key := Key(after[i]);
      Tracks(if Lookup(counts, key) > 0 then counts[key := Lookup(counts, key) - 1] else counts, before, after, i + 1)
  {
  }

  method NewAnnouncements(before: seq<Item>, after: seq<Item>) returns (items: seq<Item>)
    ensures items == NewItems(before, after, |after|)
  {
    var counts := CountKeys(before);
    items := [];
    for i := 0 to |after|
      invariant items == NewItems(before, after, i)
      invariant Tracks(counts, before, after, i)
    {
      TracksStep(counts, before, after, i);
      var key := Key(after[i]);
      if Lookup(counts, key) > 0 {
        counts := counts[key := Lookup(counts, key) - 1];
      } else {
        items := items + [after[i]];
      }
    }
  }

  lemma {:induction false} CountPrefix(xs: seq<Item>, ys: seq<Item>, n: nat, key: string)
    requires n <= |xs| && xs <= ys
    ensures Count(xs, n, key) == Count(ys, n, key)
  {
    if n > 0 { CountPrefix(xs, ys, n - 1, key); }
  }

  lemma {:induction false} CountIsMultiplicity(items: seq<Item>, n: nat, key: string)
    requires n <= |items|
    ensures Count(items, n, key) == multiset(Keys(items)[..n])[key]
  {
    if n > 0 {
      CountIsMultiplicity(items, n - 1, key);
      assert Keys(items)[..n] == Keys(items)[..n - 1] + [Key(items[n - 1])];
    }
  }

  lemma {:induction false} NewCount(before: seq<Item>, after: seq<Item>, n: nat, key: string)
    requires n <= |after|
    ensures var out := NewItems(before, after, n);
      Count(out, |out|, key) == Left(Count(after, n, key), Count(before, |before|, key))
  {
    if n > 0 {
      NewCount(before, after, n - 1, key);
      CountPrefix(NewItems(before, after, n - 1), NewItems(before, after, n), |NewItems(before, after, n - 1)|, key);
    }
  }

  /** The keys that are e-mailed are the new ones less the old ones, each as often. */
  lemma MailedIsTheDifference(before: seq<Item>, after: seq<Item>)
    ensures multiset(Keys(NewItems(before, after, |after|))) == multiset(Keys(after)) - multiset(Keys(before))
  {
    var out := NewItems(before, after, |after|);
    forall key
      ensures multiset(Keys(out))[key] == (multiset(Keys(after)) - multiset(Keys(before)))[key]
    {
      NewCount(before, after, |after|, key);
      Multiplicity(out, key);
      Multiplicity(after, key);
      Multiplicity(before, key);
    }
  }

  lemma Multiplicity(items: seq<Item>, key: string)
    ensures Count(items, |items|, key) == multiset(Keys(items))[key]
  {
    CountIsMultiplicity(items, |items|, key);
    assert Keys(items)[..|items|] == Keys(items);
  }

  /** The positions of the new items, in order: what is e-mailed is a subsequence of the list. */
  function Positions(before: seq<Item>, after: seq<Item>, n: nat): seq<nat>
    requires n <= |after|
  {
    if n == 0 then []
    else Positions(before, after, n - 1) + (if IsNew(before, after, n - 1) then [n - 1] else [])
  }

  lemma {:induction false} MailedIsSubsequence(before: seq<Item>, after: seq<Item>, n: nat)
    requires n <= |after|
    ensures var ps := Positions(before, after, n);
      && |ps| == |NewItems(before, after, n)|
      && (forall k :: 0 <= k < |ps| ==> ps[k] < n && NewItems(before, after, n)[k] == after[ps[k]])
      && (forall a, b :: 0 <= a < b < |ps| ==> ps[a] < ps[b])
  {
    if n > 0 { MailedIsSubsequence(before, after, n - 1); }
  }

  // ---------- keys identify items ----------

  predicate Plain(s: string) { NUL !in s }

  /** A text without NUL ends where the first NUL is. */
  lemma NotShorter(a: string, b: string, x: string, y: string)
    requires Plain(b) && a + [NUL] + x == b + [NUL] + y
    ensures |a| >= |b|
  {
    assert (a + [NUL] + x)[|a|] == NUL;
    assert forall i :: 0 <= i < |b| ==> (b + [NUL] + y)[i] != NUL;
  }

  lemma FirstFieldUnique(a: string, b: string, x: string, y: string)
    requires Plain(a) && Plain(b) && a + [NUL] + x == b + [NUL] + y
    ensures a == b && x == y
  {
    NotShorter(a, b, x, y);
    NotShorter(b, a, y, x);
    assert a == (a + [NUL] + x)[..|a|] == (b + [NUL] + y)[..|b|] == b;
    assert x == (a + [NUL] + x)[|a| + 1..] == (b + [NUL] + y)[|b| + 1..] == y;
  }

  /** Items whose fields hold no NUL have the same key only if they are the same. The last field
      may hold anything. */
  lemma KeyIdentifies(p: Item, q: Item)
    requires Plain(p.content) && Plain(p.extra) && Plain(p.publishDate)
    requires Plain(q.content) && Plain(q.extra) && Plain(q.publishDate)
    ensures Key(p) == Key(q) <==> p == q
  {
    if Key(p) == Key(q) {
      var p2, q2 := p.publishDate + [NUL] + p.kind, q.publishDate + [NUL] + q.kind;
      var p1, q1 := p.extra + [NUL] + p2, q.extra + [NUL] + q2;
      assert p.content + [NUL] + p1 == Key(p) == Key(q) == q.content + [NUL] + q1;
      FirstFieldUnique(p.content, q.content, p1, q1);
      FirstFieldUnique(p.extra, q.extra, p2, q2);
      FirstFieldUnique(p.publishDate, q.publishDate, p.kind, q.kind);
    }
  }

  /** With a NUL in a field two different items can share a key. */
  lemma KeysCollide()
    ensures var p, q := Item("a" + [NUL], "b", "", ""), Item("a", [NUL] + "b", "", ""); p != q && Key(p) == Key(q)
  {
    assert Key(Item("a" + [NUL], "b", "", "")) == Key(Item("a", [NUL] + "b", "", ""));
    assert ("a" + [NUL])[..] != "a";
  }
}
