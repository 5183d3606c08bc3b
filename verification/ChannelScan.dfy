/** The keyset-paginated scan over the enabled channels. */
module ChannelScan {

  datatype Channel = Channel(id: int, enabled: bool, checkEnabled: bool)

  /** The channel table in primary-key order; the database hands out positive ids. */
  predicate ValidTable(table: seq<Channel>) {
    && (forall i :: 0 <= i < |table| ==> table[i].id > 0)
    && (forall i, j :: 0 <= i < j < |table| ==> table[i].id < table[j].id)
  }

  /** SELECT ... WHERE status = enabled [AND id > lastId] ORDER BY id; the id condition is
      added only for a positive lastId. */
  function Hits(table: seq<Channel>, lastId: int): seq<Channel> {
    if table == [] then []
    else
      var c := table[0];
      (if c.enabled && (lastId > 0 ==> c.id > lastId) then [c] else []) + Hits(table[1..], lastId)
  }

  function Query(table: seq<Channel>, lastId: int, limit: nat): seq<Channel> {
    var hits := Hits(table, lastId);
    if |hits| <= limit then hits else hits[..limit]
  }

  function Checked(channels: seq<Channel>): nat {
    if channels == [] then 0
    else Checked(channels[..|channels| - 1]) + (if channels[|channels| - 1].checkEnabled then 1 else 0)
  }

  function ChecksAmong(channels: seq<Channel>, n: nat): set<nat>
    requires n <= |channels|
  {
    set i: nat | i < n && channels[i].checkEnabled
  }

  lemma ChecksAmongStep(channels: seq<Channel>, n: nat)
    requires n < |channels|
    ensures |ChecksAmong(channels, n + 1)| == |ChecksAmong(channels, n)| + (if channels[n].checkEnabled then 1 else 0)
  {
    var before, after := ChecksAmong(channels, n), ChecksAmong(channels, n + 1);
    if channels[n].checkEnabled {
      assert after == before + {n};
    } else {
      assert after == before;
    }
  }

  /** The count is the number of channels with checks enabled. */
  lemma {:induction false} CheckedIsExact(channels: seq<Channel>, n: nat)
    requires n <= |channels|
    ensures Checked(channels[..n]) == |ChecksAmong(channels, n)|
    decreases n
  {
    if n > 0 {
      CheckedIsExact(channels, n - 1);
      ChecksAmongStep(channels, n - 1);
      assert channels[..n][..n - 1] == channels[..n - 1];
    }
  }

  lemma {:induction false} HitsMembers(table: seq<Channel>)
    ensures |Hits(table, 0)| <= |table|
    ensures forall c :: c in Hits(table, 0) <==> c in table && c.enabled
    decreases |table|
  {
    if table != [] {
      HitsMembers(table[1..]);
      assert table == [table[0]] + table[1..];
    }
  }

  lemma ValidCons(c: Channel, rest: seq<Channel>)
    requires c.id > 0 && ValidTable(rest) && forall x :: x in rest ==> c.id < x.id
    ensures ValidTable([c] + rest)
  {
    var table := [c] + rest;
    forall i, j | 0 <= i < j < |table| ensures table[i].id < table[j].id {
      assert table[j] == rest[j - 1];
      if i > 0 { assert table[i] == rest[i - 1]; }
    }
  }

  /** The hits of the first query are exactly the enabled channels, each once, in ascending id order. */
  lemma {:induction false} HitsAreEnabledChannels(table: seq<Channel>)
    requires ValidTable(table)
    ensures ValidTable(Hits(table, 0)) && |Hits(table, 0)| <= |table|
    ensures forall c :: c in Hits(table, 0) <==> c in table && c.enabled
    decreases |table|
  {
    HitsMembers(table);
    if table != [] {
      HitsAreEnabledChannels(table[1..]);
      if table[0].enabled { ValidCons(table[0], Hits(table[1..], 0)); }
    }
  }

  lemma HitsSorted(table: seq<Channel>)
    requires ValidTable(table)
    ensures ValidTable(Hits(table, 0)) && |Hits(table, 0)| <= |table|
  {
    HitsAreEnabledChannels(table);
  }

  lemma {:induction false} AllAbove(table: seq<Channel>, lastId: int)
    requires forall i :: 0 <= i < |table| ==> table[i].id > lastId
    ensures Hits(table, lastId) == Hits(table, 0)
    decreases |table|
  {
    if table != [] { AllAbove(table[1..], lastId); }
  }

  /** Asking for ids above the k-th hit returns the hits after it. */
  lemma {:induction false} HitsContinue(table: seq<Channel>, k: nat)
    requires ValidTable(table) && 0 < k <= |Hits(table, 0)|
    ensures Hits(table, Hits(table, 0)[k - 1].id) == Hits(table, 0)[k..]
    decreases |table|
  {
    HitsSorted(table);
    var hits := Hits(table, 0);
    var rest := Hits(table[1..], 0);
    if !table[0].enabled {
      assert hits == rest;
      HitsContinue(table[1..], k);
    } else {
      assert hits == [table[0]] + rest;
      if k == 1 {
        AllAbove(table[1..], table[0].id);
      } else {
        HitsContinue(table[1..], k - 1);
        assert hits[0].id < hits[k - 1].id && hits[k - 1] == rest[k - 2];
        assert hits[k..] == rest[k - 1..];
      }
    }
  }

  /** One batch. The context is found cancelled once `stopAfter` channels have been processed. */
  method ProcessBatch(visited: seq<Channel>, checked: nat, channels: seq<Channel>, stopAfter: nat)
    returns (visited': seq<Channel>, checked': nat)
    requires checked == Checked(visited)
    ensures checked' == Checked(visited')
    ensures |visited| <= |visited'| <= |visited| + |channels|
    ensures visited' == visited + channels[..|visited'| - |visited|]
    ensures |visited'| < stopAfter ==> |visited'| == |visited| + |channels|
  {
    visited', checked' := visited, checked;
    var i := 0;
    while i < |channels| && |visited'| < stopAfter
      invariant 0 <= i <= |channels| && visited' == visited + channels[..i]
      invariant checked' == Checked(visited')
    {
      assert (visited' + [channels[i]])[..|visited'|] == visited';
      visited' := visited' + [channels[i]];
      if channels[i].checkEnabled {
        checked' := checked' + 1;
      }
      i := i + 1;
    }
  }

  /** What is left to visit after the first `k` hits, when the scan has remembered the last id. */
  lemma NextBatch(table: seq<Channel>, k: nat, lastId: int, batch: nat)
    requires ValidTable(table) && batch > 0 && k <= |Hits(table, 0)|
    requires lastId == if k == 0 then 0 else Hits(table, 0)[k - 1].id
    ensures var hits, channels := Hits(table, 0), Query(table, lastId, batch);
      && k + |channels| <= |hits| && channels == hits[k..k + |channels|]
      && (|channels| < batch ==> k + |channels| == |hits|)
  {
    if k > 0 {
      HitsContinue(table, k);
    }
  }

  lemma Extend(hits: seq<Channel>, k: nat, channels: seq<Channel>, n: nat)
    requires k + |channels| <= |hits| && channels == hits[k..k + |channels|] && n <= |channels|
    ensures hits[..k] + channels[..n] == hits[..k + n]
  {
  }

  /** The first channels to visit, and no others, have been visited. */
  predicate Reached(table: seq<Channel>, visited: seq<Channel>) {
    visited <= Hits(table, 0)
  }

  /** The id the next query continues from. */
  predicate Remembers(visited: seq<Channel>, lastId: int) {
    lastId == if visited == [] then 0 else visited[|visited| - 1].id
  }

  /** Visiting the first `n` channels of the next batch stays within the hits; after a whole batch
      the last channel visited is the last of the batch. */
  lemma BatchVisited(hits: seq<Channel>, visited: seq<Channel>, channels: seq<Channel>, n: nat)
    requires visited <= hits && |visited| + |channels| <= |hits| && n <= |channels|
    requires channels == hits[|visited|..|visited| + |channels|]
    ensures visited + channels[..n] <= hits
    ensures n == |channels| > 0 ==> (visited + channels[..n])[|visited| + n - 1] == channels[|channels| - 1]
  {
    assert visited == hits[..|visited|];
    Extend(hits, |visited|, channels, n);
  }

  /** The channels of the next batch: what follows the ones visited, all of it if that is less than a batch. */
  predicate IsNextBatch(hits: seq<Channel>, visited: seq<Channel>, channels: seq<Channel>, batch: nat) {
    && visited <= hits && |visited| + |channels| <= |hits|
    && channels == hits[|visited|..|visited| + |channels|]
    && (|channels| < batch ==> |visited| + |channels| == |hits|)
  }

  /** Process a batch and decide whether to go on. */
  method VisitBatch(channels: seq<Channel>, batch: nat, stopAfter: nat, visited: seq<Channel>, checked: nat, ghost hits: seq<Channel>)
    returns (visited': seq<Channel>, checked': nat, more: bool, complete: bool)
    requires batch > 0 && |visited| < stopAfter && IsNextBatch(hits, visited, channels, batch) && checked == Checked(visited)
    ensures visited' <= hits && checked' == Checked(visited')
    ensures more ==> |visited'| > |visited| && channels != [] && Remembers(visited', channels[|channels| - 1].id)
    ensures complete ==> |visited'| == |hits|
    ensures more || complete || |visited'| >= stopAfter
  {
    visited', checked', more, complete := visited, checked, false, false;
    if |channels| == 0 {
      complete := true;
      return;
    }
    visited', checked' := ProcessBatch(visited, checked, channels, stopAfter);
    BatchVisited(hits, visited, channels, |visited'| - |visited|);
    if |visited'| < |visited| + |channels| {
      return;
    }
    more, complete := |channels| >= batch, |channels| < batch;
  }

  /** One turn of the scan loop: query a batch, process it, and decide whether to go on. */
  method Turn(table: seq<Channel>, batch: nat, stopAfter: nat, visited: seq<Channel>, checked: nat, lastId: int)
    returns (visited': seq<Channel>, checked': nat, lastId': int, more: bool, complete: bool)
    requires ValidTable(table) && batch > 0 && |visited| < stopAfter
    requires Reached(table, visited) && Remembers(visited, lastId) && checked == Checked(visited)
    ensures Reached(table, visited') && checked' == Checked(visited')
    ensures more ==> Remembers(visited', lastId') && |visited'| > |visited|
    ensures complete ==> |visited'| == |Hits(table, 0)|
    ensures more || complete || |visited'| >= stopAfter
  {
    var channels := Query(table, lastId, batch);
    NextBatch(table, |visited|, lastId, batch);
    lastId' := if |channels| == 0 then lastId else channels[|channels| - 1].id;
    visited', checked', more, complete := VisitBatch(channels, batch, stopAfter, visited, checked, Hits(table, 0));
  }

  /** The scan. `failAt` is the number of queries that succeed before one fails. Without a
      cancellation or a failed query, every enabled channel is visited exactly once in
      ascending id order, whatever the batch size; otherwise a prefix of them is. */
  method Scan(table: seq<Channel>, batch: nat, stopAfter: nat, failAt: nat)
    returns (visited: seq<Channel>, checked: nat, complete: bool)
    requires ValidTable(table) && batch > 0
    ensures visited <= Hits(table, 0)
    ensures complete ==> visited == Hits(table, 0)
    ensures stopAfter > |table| && failAt > |table| ==> complete
    ensures checked == Checked(visited)
  {
    HitsSorted(table);
    visited, checked, complete := [], 0, false;
    var lastId, queries, more := 0, 0, true;
    while more && |visited| < stopAfter && queries < failAt
      invariant Reached(table, visited) && checked == Checked(visited)
      invariant more ==> Remembers(visited, lastId) && queries <= |visited|
      invariant complete ==> |visited| == |Hits(table, 0)|
      invariant more || complete || |visited| >= stopAfter
      decreases more, |Hits(table, 0)| - |visited|
    {
      visited, checked, lastId, more, complete := Turn(table, batch, stopAfter, visited, checked, lastId);
      queries := queries + 1;
    }
  }
}
