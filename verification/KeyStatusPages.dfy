/** The paged, filtered status listing of a multi-key channel. */
module KeyStatusPages {
  import opened Prelude
  import opened MultiKeys

  datatype KeyStatus = KeyStatus(
    index: int, status: int, disabledTime: int, reason: string, preview: seq<byte>, weight: nat, priority: int)

  const DEFAULT_PAGE_SIZE := 50

  /** The bytes a text is held in, UTF-8 in Go. */
  type Encoding = string -> seq<byte>

  /** The first ten bytes of a longer key, which may end inside a character. */
  function Preview(key: string, bytes: Encoding): seq<byte> {
    if |bytes(key)| > 10 then bytes(key)[..10] + bytes("...") else bytes(key)
  }

  function StatusOf(k: Keyed, i: nat, bytes: Encoding): KeyStatus
    requires i < |k.keys|
  {
    var status := Status(k, i);
    KeyStatus(i, status,
      if status != ENABLED then Get(k.info.time, i, 0) else 0,
      if status != ENABLED then Get(k.info.reason, i, "") else "",
      Preview(k.keys[i], bytes),
      Get(k.info.weight, i, 0), Get(k.info.priority, i, 0))
  }

  /** The entries of the first n keys that pass the filter, in key order. */
  function Matching(k: Keyed, n: nat, filter: Option<int>, bytes: Encoding): seq<KeyStatus>
    requires n <= |k.keys|
  {
    if n == 0 then []
    else
      Matching(k, n - 1, filter, bytes) +
      (if filter.None? || Status(k, n - 1) == filter.value then [StatusOf(k, n - 1, bytes)] else [])
  }

  /** How many of the first n keys have the given status. */
  function Count(k: Keyed, n: nat, status: int): nat {
    if n == 0 then 0 else Count(k, n - 1, status) + (if Status(k, n - 1) == status then 1 else 0)
  }

  function TotalPages(total: nat, size: nat): nat
    requires size > 0
  {
    var pages := (total + size - 1) / size;
    if pages == 0 then 1 else pages
  }

  /** Page p of a list, counting from 1; a page past the end is the last one. */
  function Page<T>(xs: seq<T>, page: nat, size: nat): seq<T>
    requires page > 0 && size > 0
  {
    var p := if page > TotalPages(|xs|, size) then TotalPages(|xs|, size) else page;
    var start := (p - 1) * size;
    var end := if start + size > |xs| then |xs| else start + size;
    if start < |xs| then xs[start..end] else []
  }

  datatype Response = Response(
    keys: seq<KeyStatus>, total: nat, page: nat, pageSize: nat, totalPages: nat,
    enabled: nat, manual: nat, auto: nat)

  /** The entries of all keys, and how many keys have each status. */
  method CollectStatus(k: Keyed, bytes: Encoding) returns (all: seq<KeyStatus>, enabled: nat, manual: nat, auto: nat)
    ensures |all| == |k.keys| && forall i :: 0 <= i < |all| ==> all[i] == StatusOf(k, i, bytes)
    ensures enabled == Count(k, |k.keys|, ENABLED)
    ensures manual == Count(k, |k.keys|, MANUALLY_DISABLED)
    ensures auto == Count(k, |k.keys|, AUTO_DISABLED)
  {
    all, enabled, manual, auto := [], 0, 0, 0;
    for i := 0 to |k.keys|
      invariant |all| == i && forall j :: 0 <= j < i ==> all[j] == StatusOf(k, j, bytes)
      invariant enabled == Count(k, i, ENABLED)
      invariant manual == Count(k, i, MANUALLY_DISABLED)
      invariant auto == Count(k, i, AUTO_DISABLED)
    {
      var status := Status(k, i);
      if status == ENABLED {
        enabled := enabled + 1;
      } else if status == MANUALLY_DISABLED {
        manual := manual + 1;
      } else if status == AUTO_DISABLED {
        auto := auto + 1;
      }
      all := all + [StatusOf(k, i, bytes)];
    }
  }

  /** The entries that pass the status filter, in key order. */
  method FilterStatus(k: Keyed, all: seq<KeyStatus>, filter: Option<int>, bytes: Encoding) returns (filtered: seq<KeyStatus>)
    requires |all| == |k.keys| && forall i :: 0 <= i < |all| ==> all[i] == StatusOf(k, i, bytes)
    ensures filtered == Matching(k, |k.keys|, filter, bytes)
  {
    filtered := [];
    for i := 0 to |all|
      invariant filtered == Matching(k, i, filter, bytes)
    {
      if filter.None? || all[i].status == filter.value {
        filtered := filtered + [all[i]];
      }
    }
  }

  method GetKeyStatus(k: Keyed, page: int, pageSize: int, filter: Option<int>, bytes: Encoding) returns (r: Response)
    ensures var size := if pageSize <= 0 then 50 else pageSize;
      var wanted := if page <= 0 then 1 else page;
      var all := Matching(k, |k.keys|, filter, bytes);
      && r.pageSize == size && r.total == |all| && r.totalPages == TotalPages(|all|, size)
      && r.page == (if wanted > r.totalPages then r.totalPages else wanted)
      && r.keys == Page(all, wanted, size)
    ensures r.enabled == Count(k, |k.keys|, 1)
    ensures r.manual == Count(k, |k.keys|, 2)
    ensures r.auto == Count(k, |k.keys|, 3)
  {
    var wanted := if page <= 0 then 1 else page;
    var size := if pageSize <= 0 then DEFAULT_PAGE_SIZE else pageSize;
    var all, enabled, manual, auto := CollectStatus(k, bytes);
    var filtered := FilterStatus(k, all, filter, bytes);
    var totalPages := TotalPages(|filtered|, size);
    var keys := Page(filtered, wanted, size);
    if wanted > totalPages {
      wanted := totalPages;
    }
    r := Response(keys, |filtered|, wanted, size, totalPages, enabled, manual, auto);
  }

  // ---------- the list that is paged ----------

  /** A key without a stored status is enabled. */
  predicate Passes(k: Keyed, i: int, filter: Option<int>) {
    filter.None? || filter.value == if i in k.info.status then k.info.status[i] else 1
  }

  /** An entry shows its key's position, status, weight and priority, when and why it was disabled
      unless it is enabled, and at most ten bytes of the key. */
  predicate IsEntry(e: KeyStatus, k: Keyed, i: nat, bytes: Encoding)
    requires i < |k.keys|
  {
    && e.index == i && (if i in k.info.status then e.status == k.info.status[i] else e.status == 1)
    && (if i in k.info.time && e.status != 1 then e.disabledTime == k.info.time[i] else e.disabledTime == 0)
    && (if i in k.info.reason && e.status != 1 then e.reason == k.info.reason[i] else e.reason == "")
    && (if i in k.info.weight then e.weight == k.info.weight[i] else e.weight == 0)
    && (if i in k.info.priority then e.priority == k.info.priority[i] else e.priority == 0)
    && var key := bytes(k.keys[i]);
       if |key| <= 10 then e.preview == key
       else |e.preview| == 10 + |bytes("...")| && e.preview[..10] == key[..10] && e.preview[10..] == bytes("...")
  }

  lemma StatusIsEntry(k: Keyed, i: nat, bytes: Encoding)
    requires i < |k.keys|
    ensures IsEntry(StatusOf(k, i, bytes), k, i, bytes)
  {
  }

  lemma MatchingStep(k: Keyed, n: nat, filter: Option<int>, bytes: Encoding)
    requires n < |k.keys|
    ensures Matching(k, n + 1, filter, bytes) ==
      Matching(k, n, filter, bytes) + (if Passes(k, n, filter) then [StatusOf(k, n, bytes)] else [])
    ensures IsEntry(StatusOf(k, n, bytes), k, n, bytes)
  {
    StatusIsEntry(k, n, bytes);
  }

  /** Entries of keys that pass the filter, in key order, up to position `n`. */
  predicate Entries(all: seq<KeyStatus>, k: Keyed, n: nat, filter: Option<int>, bytes: Encoding)
    requires n <= |k.keys|
  {
    && (forall j :: 0 <= j < |all| ==>
          0 <= all[j].index < n && Passes(k, all[j].index, filter) && IsEntry(all[j], k, all[j].index, bytes))
    && (forall a, b :: 0 <= a < b < |all| ==> all[a].index < all[b].index)
  }

  predicate Lists(all: seq<KeyStatus>, i: int) {
    exists j :: 0 <= j < |all| && all[j].index == i
  }

  predicate Covers(all: seq<KeyStatus>, k: Keyed, n: nat, filter: Option<int>) {
    forall i :: 0 <= i < n && Passes(k, i, filter) ==> Lists(all, i)
  }

  lemma EntriesAppend(all: seq<KeyStatus>, e: KeyStatus, k: Keyed, n: nat, filter: Option<int>, bytes: Encoding)
    requires n < |k.keys| && Entries(all, k, n, filter, bytes) && Passes(k, n, filter) && IsEntry(e, k, n, bytes)
    ensures Entries(all + [e], k, n + 1, filter, bytes)
  {
  }

  lemma EntriesWiden(all: seq<KeyStatus>, k: Keyed, n: nat, filter: Option<int>, bytes: Encoding)
    requires n < |k.keys| && Entries(all, k, n, filter, bytes)
    ensures Entries(all, k, n + 1, filter, bytes)
  {
  }

  lemma CoversAppend(all: seq<KeyStatus>, e: KeyStatus, k: Keyed, n: nat, filter: Option<int>)
    requires Covers(all, k, n, filter) && e.index == n
    ensures Covers(all + [e], k, n + 1, filter)
  {
    forall i | 0 <= i < n + 1 && Passes(k, i, filter) ensures Lists(all + [e], i) {
      if i == n {
        assert (all + [e])[|all|].index == i;
      } else {
        var j :| 0 <= j < |all| && all[j].index == i;
        assert (all + [e])[j].index == i;
      }
    }
  }

  lemma ExactStep(all: seq<KeyStatus>, e: KeyStatus, k: Keyed, n: nat, filter: Option<int>, bytes: Encoding)
    requires n < |k.keys| && Entries(all, k, n, filter, bytes) && Covers(all, k, n, filter) && IsEntry(e, k, n, bytes)
    ensures var all' := all + (if Passes(k, n, filter) then [e] else []);
      Entries(all', k, n + 1, filter, bytes) && Covers(all', k, n + 1, filter)
  {
    if Passes(k, n, filter) {
      EntriesAppend(all, e, k, n, filter, bytes);
      CoversAppend(all, e, k, n, filter);
    } else {
      EntriesWiden(all, k, n, filter, bytes);
      assert all + [] == all;
    }
  }

  /** The list holds an entry for each key that passes the filter and no other, in key order. */
  lemma {:induction false} MatchingIsExact(k: Keyed, n: nat, filter: Option<int>, bytes: Encoding)
    requires n <= |k.keys|
    ensures Entries(Matching(k, n, filter, bytes), k, n, filter, bytes) && Covers(Matching(k, n, filter, bytes), k, n, filter)
    decreases n
  {
    if n > 0 {
      MatchingIsExact(k, n - 1, filter, bytes);
      MatchingStep(k, n - 1, filter, bytes);
      ExactStep(Matching(k, n - 1, filter, bytes), StatusOf(k, n - 1, bytes), k, n - 1, filter, bytes);
    }
  }

  /** The positions below `n` whose key has the status. */
  function WithStatus(k: Keyed, n: nat, status: int): set<nat> {
    set i: nat | i < n && Passes(k, i, Some(status))
  }

  lemma WithStatusStep(k: Keyed, n: nat, status: int)
    ensures |WithStatus(k, n + 1, status)| == |WithStatus(k, n, status)| + (if Passes(k, n, Some(status)) then 1 else 0)
  {
    var before, after := WithStatus(k, n, status), WithStatus(k, n + 1, status);
    if Passes(k, n, Some(status)) {
      assert after == before + {n};
    } else {
      assert after == before;
    }
  }

  /** A count is the number of keys with the status. */
  lemma {:induction false} CountIsExact(k: Keyed, n: nat, status: int)
    ensures Count(k, n, status) == |WithStatus(k, n, status)|
    decreases n
  {
    if n > 0 {
      CountIsExact(k, n - 1, status);
      WithStatusStep(k, n - 1, status);
    }
  }

  // ---------- paging loses and repeats nothing ----------

  function FirstPages<T>(xs: seq<T>, n: nat, size: nat): seq<T>
    requires size > 0
  {
    if n == 0 then [] else FirstPages(xs, n - 1, size) + Page(xs, n, size)
  }

  lemma TotalPagesCover(total: nat, size: nat)
    requires size > 0
    ensures (TotalPages(total, size) - 1) * size <= total <= TotalPages(total, size) * size
    ensures total > 0 ==> (TotalPages(total, size) - 1) * size < total
  {
    var q := (total + size - 1) / size;
    assert q * size + (total + size - 1) % size == total + size - 1;
  }

  lemma FullPage<T>(xs: seq<T>, n: nat, size: nat)
    requires size > 0 && 0 < n < TotalPages(|xs|, size)
    ensures 0 <= (n - 1) * size <= n * size <= |xs|
    ensures Page(xs, n, size) == xs[(n - 1) * size..n * size]
  {
    var last := TotalPages(|xs|, size);
    TotalPagesCover(|xs|, size);
    MulMonotone(n, last - 1, size);
    MulMonotone(0, n - 1, size);
    assert (n - 1) * size + size == n * size;
  }

  lemma MulMonotone(a: nat, b: nat, c: nat)
    requires a <= b
    ensures a * c <= b * c
  {
    assert b * c - a * c == (b - a) * c;
  }

  lemma {:induction false} FirstPagesArePrefix<T>(xs: seq<T>, n: nat, size: nat)
    requires size > 0 && n < TotalPages(|xs|, size)
    ensures 0 <= n * size <= |xs| && FirstPages(xs, n, size) == xs[..n * size]
    decreases n
  {
    if n > 0 {
      FullPage(xs, n, size);
      FirstPagesArePrefix(xs, n - 1, size);
      assert xs[..(n - 1) * size] + xs[(n - 1) * size..n * size] == xs[..n * size];
    }
  }

  lemma LastPage<T>(xs: seq<T>, size: nat)
    requires size > 0
    ensures var start := (TotalPages(|xs|, size) - 1) * size;
      0 <= start <= |xs| && Page(xs, TotalPages(|xs|, size), size) == xs[start..]
  {
    var last := TotalPages(|xs|, size);
    TotalPagesCover(|xs|, size);
    MulMonotone(0, last - 1, size);
    assert (last - 1) * size + size == last * size;
  }

  lemma LastPageSplits<T>(xs: seq<T>, size: nat) returns (last: nat, start: nat)
    requires size > 0
    ensures last == TotalPages(|xs|, size) && last > 0 && start <= |xs|
    ensures FirstPages(xs, last - 1, size) == xs[..start]
    ensures Page(xs, last, size) == xs[start..]
  {
    last := TotalPages(|xs|, size);
    LastPage(xs, size);
    FirstPagesArePrefix(xs, last - 1, size);
    start := (last - 1) * size;
  }

  lemma OneMorePage<T>(xs: seq<T>, n: nat, size: nat, start: nat)
    requires n > 0 && size > 0 && start <= |xs|
    requires FirstPages(xs, n - 1, size) == xs[..start] && Page(xs, n, size) == xs[start..]
    ensures FirstPages(xs, n, size) == xs
  {
    assert xs[..start] + xs[start..] == xs;
  }

  /** Pages 1 to totalPages, one after the other, are the whole filtered list. */
  lemma AllPagesAreTheList<T>(xs: seq<T>, size: nat)
    requires size > 0
    ensures FirstPages(xs, TotalPages(|xs|, size), size) == xs
  {
    var last, start := LastPageSplits(xs, size);
    OneMorePage(xs, last, size, start);
  }

  lemma PastTheEndIsLastPage<T>(xs: seq<T>, page: nat, size: nat)
    requires size > 0 && page >= TotalPages(|xs|, size)
    ensures Page(xs, page, size) == Page(xs, TotalPages(|xs|, size), size)
    ensures xs != [] ==> Page(xs, page, size) != []
  {
    TotalPagesCover(|xs|, size);
    LastPage(xs, size);
  }

  /** The three counters cover every key exactly when every key has one of the three statuses. */
  lemma {:induction false} CountsAddUp(k: Keyed, n: nat)
    ensures Count(k, n, ENABLED) + Count(k, n, MANUALLY_DISABLED) + Count(k, n, AUTO_DISABLED) <= n
    ensures Count(k, n, ENABLED) + Count(k, n, MANUALLY_DISABLED) + Count(k, n, AUTO_DISABLED) == n
      <==> forall i :: 0 <= i < n ==> ENABLED <= Status(k, i) <= AUTO_DISABLED
    decreases n
  {
    if n > 0 { CountsAddUp(k, n - 1); }
  }
}
