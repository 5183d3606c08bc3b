/** The request handlers of a multi-key channel, as they change the channel step by step. */
module MultiKeyChannel {
  import opened Prelude
  import opened MultiKeys
  import opened MultiKeyStore
  import Text

  lemma CopyExtends<T>(m: map<int, T>, ps: seq<int>, i: int, worth: (int, T) -> bool)
    ensures Copy(m, i, Reindex(m, ps, worth), |ps|, worth) == Reindex(m, ps + [i], worth)
  {
    assert (ps + [i])[..|ps|] == ps;
  }

  /** One turn of a deletion loop: key `i` is kept under the next free position. */
  function Append(k: Keyed, i: nat, r: Keyed, lively: int -> bool): Keyed
    requires i < |k.keys|
  {
    var j := r.info.size;
    Keyed(r.keys + [k.keys[i]], Info(
      j + 1,
      Copy(k.info.status, i, r.info.status, j, Unlike(ENABLED)),
      Copy(k.info.time, i, r.info.time, j, AtLively(lively)),
      Copy(k.info.reason, i, r.info.reason, j, AtLively(lively)),
      Copy(k.info.weight, i, r.info.weight, j, Unlike(0)),
      Copy(k.info.priority, i, r.info.priority, j, Unlike(0))))
  }

  lemma AppendExtends(k: Keyed, ps: seq<int>, i: nat, lively: int -> bool)
    requires forall j :: 0 <= j < |ps| ==> 0 <= ps[j] < |k.keys|
    requires i < |k.keys|
    ensures Append(k, i, Retain(k, ps, lively), lively) == Retain(k, ps + [i], lively)
  {
    CopyExtends(k.info.status, ps, i, Unlike(ENABLED));
    CopyExtends(k.info.time, ps, i, AtLively(lively));
    CopyExtends(k.info.reason, ps, i, AtLively(lively));
    CopyExtends(k.info.weight, ps, i, Unlike(0));
    CopyExtends(k.info.priority, ps, i, Unlike(0));
    assert KeysAt(k.keys, ps + [i]) == KeysAt(k.keys, ps) + [k.keys[i]];
  }

  /** The re-indexing loop shared by both deletions: visit the keys in order and give the
      kept ones consecutive new positions. */
  method Rebuild(k: Keyed, keep: int -> bool, lively: int -> bool) returns (r: Keyed)
    ensures r == Retain(k, Kept(|k.keys|, keep), lively)
  {
    r := Keyed([], Info(0, map[], map[], map[], map[], map[]));
    RetainNothing(k, lively);
    for i := 0 to |k.keys|
      invariant r == Retain(k, Kept(i, keep), lively)
    {
      assert Kept(i + 1, keep) == if keep(i) then Kept(i, keep) + [i] else Kept(i, keep);
      if keep(i) {
        AppendExtends(k, Kept(i, keep), i, lively);
        r := Append(k, i, r, lively);
      }
    }
  }

  lemma {:induction false} KeptAll(n: nat, keep: int -> bool)
    requires forall i :: 0 <= i < n ==> keep(i)
    ensures |Kept(n, keep)| == n
  {
    if n > 0 { KeptAll(n - 1, keep); }
  }

  lemma FewerIffAuto(k: Keyed)
    ensures |Kept(|k.keys|, Alive(k))| == |k.keys| <==> !AnyKey(k, |k.keys|, AUTO_DISABLED)
  {
    if AnyKey(k, |k.keys|, AUTO_DISABLED) {
      var i :| 0 <= i < |k.keys| && Status(k, i) == AUTO_DISABLED;
      KeptMisses(|k.keys|, Alive(k), i);
    } else {
      KeptAll(|k.keys|, Alive(k));
    }
  }

  /** Disable every enabled key in place, counting them. */
  method DisableEnabled(k: Keyed) returns (status: map<int, int>, disabledCount: nat)
    ensures status == DisabledAll(k, k.info.size)
    ensures disabledCount > 0 <==> AnyKey(k, k.info.size, ENABLED)
  {
    status, disabledCount := k.info.status, 0;
    var i := 0;
    while i < k.info.size
      invariant 0 <= i && (i <= k.info.size || i == 0)
      invariant status == DisabledAll(k, i)
      invariant disabledCount > 0 <==> AnyKey(k, i, ENABLED)
    {
      DisabledAllEntry(k, i, i);
      if Get(status, i, ENABLED) == ENABLED {
        status := status[i := MANUALLY_DISABLED];
        disabledCount := disabledCount + 1;
      }
      i := i + 1;
    }
  }

  /** A channel object: `saved` is the database row, `key` and `info` the loaded copy a request works on. */
  class Channel {
    var saved: Row
    var key: string
    var info: Info
    const json: Json

    constructor (saved: Row, json: Json)
      ensures this.saved == saved && this.json == json
    {
      this.saved, this.json := saved, json;
      this.key, this.info := saved.text, saved.info;
    }

    /** GetChannelById */
    method Load()
      modifies this`key, this`info
      ensures key == saved.text && info == saved.info
    {
      key, info := saved.text, saved.info;
    }

    /** Channel.Update: recount the keys of the stored text, clean up the statuses, write the
        row unless the database refuses. */
    method Update(written: bool)
      modifies this
      ensures saved == if written then Save(old(saved), old(key), old(info), json) else old(saved)
    {
      var text := key;
      if text == "" {
        text := saved.text;
      }
      info := info.(size := CountKeys(text, json));
      info := info.(status := map i | i in info.status && i < info.size :: info.status[i]);
      if written {
        saved := Row(if key == "" then saved.text else key, info);
      }
    }

    /** Each handler loads the channel, refuses or changes its copy, and saves it. */
    method SetKeyConfig(index: Option<int>, weight: Option<nat>, priority: Option<int>, written: bool) returns (ok: bool)
      modifies this
      ensures ok == (Act(MultiKeyStore.Load(old(saved), json), SetConfig(index, weight, priority)).Some? && written)
      ensures saved == if ok then StepRow(old(saved), SetConfig(index, weight, priority), json) else old(saved)
    {
      Load();
      if index.None? || index.value < 0 || index.value >= info.size || (weight.None? && priority.None?) {
        return false;
      }
      if weight.Some? {
        info := info.(weight := if weight.value == 0 then info.weight - {index.value} else info.weight[index.value := weight.value]);
      }
      if priority.Some? {
        info := info.(priority := if priority.value == 0 then info.priority - {index.value} else info.priority[index.value := priority.value]);
      }
      Update(written);
      return written;
    }

    method DisableKey(index: Option<int>, written: bool) returns (ok: bool)
      modifies this
      ensures ok == (Act(MultiKeyStore.Load(old(saved), json), MultiKeys.DisableKey(index)).Some? && written)
      ensures saved == if ok then StepRow(old(saved), MultiKeys.DisableKey(index), json) else old(saved)
    {
      Load();
      if index.None? || index.value < 0 || index.value >= info.size {
        return false;
      }
      info := info.(status := info.status[index.value := MANUALLY_DISABLED]);
      Update(written);
      return written;
    }

    method EnableKey(index: Option<int>, written: bool) returns (ok: bool)
      modifies this
      ensures ok == (Act(MultiKeyStore.Load(old(saved), json), MultiKeys.EnableKey(index)).Some? && written)
      ensures saved == if ok then StepRow(old(saved), MultiKeys.EnableKey(index), json) else old(saved)
    {
      Load();
      if index.None? || index.value < 0 || index.value >= info.size {
        return false;
      }
      info := info.(status := info.status - {index.value},
                    time := info.time - {index.value},
                    reason := info.reason - {index.value});
      Update(written);
      return written;
    }

    method EnableAllKeys(written: bool) returns (ok: bool)
      modifies this
      ensures ok == written
      ensures saved == if ok then StepRow(old(saved), EnableAll, json) else old(saved)
    {
      Load();
      info := info.(status := map[], time := map[], reason := map[]);
      Update(written);
      return written;
    }

    method DisableAllKeys(written: bool) returns (ok: bool)
      modifies this
      ensures ok == (Act(MultiKeyStore.Load(old(saved), json), DisableAll).Some? && written)
      ensures saved == if ok then StepRow(old(saved), DisableAll, json) else old(saved)
    {
      Load();
      var status, disabledCount := DisableEnabled(Keyed(ReadKeys(key, json), info));
      info := info.(status := status);
      if disabledCount == 0 {
        return false;
      }
      Update(written);
      return written;
    }

    method DeleteKey(index: Option<int>, written: bool) returns (ok: bool)
      modifies this
      ensures ok == (Act(MultiKeyStore.Load(old(saved), json), MultiKeys.DeleteKey(index)).Some? && written)
      ensures saved == if ok then StepRow(old(saved), MultiKeys.DeleteKey(index), json) else old(saved)
    {
      Load();
      if index.None? || index.value < 0 || index.value >= info.size {
        return false;
      }
      var rest := Rebuild(Keyed(ReadKeys(key, json), info), NotAt(index.value), Everywhere());
      if |rest.keys| == 0 {
        return false;
      }
      key, info := Text.Join(rest.keys, '\n'), rest.info;
      Update(written);
      return written;
    }

    method DeleteDisabledKeys(written: bool) returns (ok: bool)
      modifies this
      ensures ok == (Act(MultiKeyStore.Load(old(saved), json), DeleteDisabled).Some? && written)
      ensures saved == if ok then StepRow(old(saved), DeleteDisabled, json) else old(saved)
    {
      Load();
      var k := Keyed(ReadKeys(key, json), info);
      FewerIffAuto(k);
      var rest := Rebuild(k, Alive(k), Lively(k));
      if |rest.keys| == |k.keys| {
        return false;
      }
      key, info := Text.Join(rest.keys, '\n'), rest.info;
      Update(written);
      return written;
    }
  }
}
