/** Step-up verification: the markers a session holds between a WebAuthn ceremony, the
    verification call that consumes it and the checks that rely on the verification. */
module StepUpSession {
  import opened Prelude

  const VERIFICATION_TIMEOUT := 300
  const READY_TIMEOUT := 60

  /** A session entry: missing, a Unix time, or a value of another type. */
  datatype Mark = Absent | At(time: int) | Junk

  datatype Session = Session(ready: Mark, verified: Mark, means: Option<string>)

  const START := Session(Absent, Absent, None)

  /** The requests that touch the markers. Whether the session can be saved, whether a one-time
      code is valid and the clock readings are inputs. */
  datatype Event =
    | PasskeyFinish(now: int, saved: bool)
    | Verify(wanted: string, has2FA: bool, hasPasskey: bool, code: string, codeValid: bool,
             checkAt: int, consumed: bool, setAt: int, stored: bool)
    | Require(wanted: string, now: int, saved: bool)
    | Guard(admin: bool, now: int, saved: bool)

  function SaveIf(ok: bool, view: Session, stored: Session): Session { if ok then view else stored }

  /** A verification that passed: the ready marker goes, the verified markers come. */
  function Conclude(s: Session, wanted: string, now: int, saved: bool): (Session, bool) {
    (SaveIf(saved, Session(Absent, At(now), Some(wanted)), s), saved)
  }

  function DoVerify(s: Session, e: Event): (Session, bool)
    requires e.Verify?
  {
    if e.wanted == "2fa" && e.has2FA && e.code != "" && e.codeValid then Conclude(s, e.wanted, e.setAt, e.stored)
    else if e.wanted != "passkey" || !e.hasPasskey || s.ready.Absent? then (s, false)
    else
      var spent := SaveIf(e.consumed, s.(ready := Absent), s);
      if s.ready.Junk? || !e.consumed || e.checkAt - s.ready.time >= READY_TIMEOUT then (spent, false)
      else Conclude(spent, e.wanted, e.setAt, e.stored)
  }

  predicate Fresh(s: Session, now: int) {
    s.verified.At? && now - s.verified.time < VERIFICATION_TIMEOUT
  }

  function Unverified(s: Session): Session { s.(verified := Absent, means := None) }

  /** The session after a request and whether the request was granted. */
  function Step(s: Session, e: Event): (Session, bool) {
    match e
    case PasskeyFinish(now, saved) => (SaveIf(saved, Session(At(now), Absent, None), s), saved)
    case Verify(_, _, _, _, _, _, _, _, _) => DoVerify(s, e)
    case Require(wanted, now, saved) =>
      if Fresh(s, now) then (s, s.means == Some(wanted)) else (SaveIf(saved, Unverified(s), s), false)
    case Guard(admin, now, saved) =>
      if admin then (s, true)
      else if s.verified.Absent? || Fresh(s, now) then (s, Fresh(s, now)) else (SaveIf(saved, Unverified(s), s), false)
  }

  /** The stored session, which each request reads, changes in its own view and saves. */
  class SessionStore {
    var stored: Session

    constructor ()
      ensures stored == START
    {
      stored := START;
    }

    method FinishPasskey(now: int, saved: bool) returns (ok: bool)
      modifies this
      ensures (stored, ok) == Step(old(stored), PasskeyFinish(now, saved))
    {
      var view := stored.(ready := At(now));
      view := view.(verified := Absent);
      view := view.(means := None);
      if saved { stored := view; }
      ok := saved;
    }

    /** Takes the ready marker out of the session; true when it was recent. */
    method ConsumePasskeyReady(checkAt: int, consumed: bool) returns (ok: bool)
      modifies this
      ensures ok <==> old(stored).ready.At? && consumed && checkAt - old(stored).ready.time < 60
      ensures stored == SaveIf(consumed, old(stored).(ready := Absent), old(stored))
    {
      var ready := stored.ready;
      if ready.Absent? {
        return false;
      }
      var view := stored.(ready := Absent);
      if consumed { stored := view; }
      if ready.Junk? || !consumed {
        return false;
      }
      return checkAt - ready.time < READY_TIMEOUT;
    }

    method UniversalVerify(wanted: string, has2FA: bool, hasPasskey: bool, code: string, codeValid: bool,
                           checkAt: int, consumed: bool, setAt: int, saved: bool) returns (ok: bool)
      modifies this
      ensures (stored, ok) ==
        Step(old(stored), Verify(wanted, has2FA, hasPasskey, code, codeValid, checkAt, consumed, setAt, saved))
      ensures ok ==> saved && (wanted == "2fa" || wanted == "passkey")
      ensures wanted == "2fa" ==> (ok <==> saved && has2FA && code != "" && codeValid)
      ensures wanted == "passkey" ==>
        (ok <==> saved && hasPasskey && consumed && old(stored).ready.At? && checkAt - old(stored).ready.time < 60)
      ensures ok ==> stored == Session(Absent, At(setAt), Some(wanted))
    {
      if !has2FA && !hasPasskey {
        return false;
      }
      var verified := false;
      if wanted == "2fa" {
        if !has2FA || code == "" { return false; }
        verified := codeValid;
      } else if wanted == "passkey" {
        if !hasPasskey { return false; }
        verified := ConsumePasskeyReady(checkAt, consumed);
      }
      if !verified {
        return false;
      }
      var view := stored.(ready := Absent);
      view := view.(verified := At(setAt));
      view := view.(means := Some(wanted));
      if saved { stored := view; }
      return saved;
    }

    method RequireMethod(wanted: string, now: int, saved: bool) returns (ok: bool)
      modifies this
      ensures (stored, ok) == Step(old(stored), Require(wanted, now, saved))
    {
      if !stored.verified.At? || now - stored.verified.time >= VERIFICATION_TIMEOUT {
        var view := stored.(verified := Absent);
        view := view.(means := None);
        if saved { stored := view; }
        return false;
      }
      return stored.means.Some? && stored.means.value == wanted;
    }

    method SecureVerificationRequired(admin: bool, now: int, saved: bool) returns (ok: bool)
      modifies this
      ensures (stored, ok) == Step(old(stored), Guard(admin, now, saved))
    {
      if admin {
        return true;
      }
      if stored.verified.Absent? {
        return false;
      }
      if stored.verified.Junk? || now - stored.verified.time >= VERIFICATION_TIMEOUT {
        if saved { stored := stored.(verified := Absent, means := None); }
        return false;
      }
      return true;
    }
  }

  // ---------- runs ----------

  /** The session after the first `n` requests. */
  function After(events: seq<Event>, n: nat): Session
    requires n <= |events|
  {
    if n == 0 then START else Step(After(events, n - 1), events[n - 1]).0
  }

  predicate Granted(events: seq<Event>, i: nat)
    requires i < |events|
  {
    Step(After(events, i), events[i]).1
  }

  /** Requests that write a new marker. */
  predicate Writes(events: seq<Event>, i: nat)
    requires i < |events|
  {
    (events[i].PasskeyFinish? || events[i].Verify?) && Granted(events, i)
  }

  /** No marker is written by the requests strictly between `a` and `b`. */
  predicate Quiet(events: seq<Event>, a: nat, b: nat)
    requires b <= |events|
  {
    forall k :: a < k < b ==> !Writes(events, k)
  }

  /** Verification `v` with method `wanted` is the last marker written before request `i`. */
  predicate VerifiedBy(events: seq<Event>, v: nat, i: nat, wanted: string)
    requires i <= |events|
  {
    v < i && events[v].Verify? && events[v].wanted == wanted && Granted(events, v) && Quiet(events, v, i)
  }

  /** The ready marker that request `i` finds was written by the WebAuthn ceremony `j`, has been
      there ever since, and no other marker was written in between. */
  predicate ReadyFrom(events: seq<Event>, j: nat, i: nat)
    requires i <= |events|
  {
    && j < i && events[j].PasskeyFinish? && Granted(events, j) && Quiet(events, j, i)
    && forall k :: j < k <= i ==> After(events, k).ready == At(events[j].now)
  }

  predicate Exclusive(s: Session) {
    && !s.ready.Junk? && !s.verified.Junk?
    && (s.ready.Absent? || s.verified.Absent?) && (s.verified.Absent? <==> s.means.None?)
  }

  /** The ready and the verified marker are never both present, in any run. */
  lemma {:induction false} MarkersExclude(events: seq<Event>, n: nat)
    requires n <= |events|
    ensures Exclusive(After(events, n))
  {
    if n > 0 { MarkersExclude(events, n - 1); }
  }

  /** Whatever ready marker is present comes from one ceremony. */
  lemma {:induction false} ReadyHasSource(events: seq<Event>, i: nat) returns (j: nat)
    requires i <= |events| && After(events, i).ready.At?
    ensures ReadyFrom(events, j, i)
  {
    var e := events[i - 1];
    if e.PasskeyFinish? && e.saved {
      j := i - 1;
    } else {
      j := ReadyHasSource(events, i - 1);
    }
  }

  lemma {:induction false} VerifiedHasSource(events: seq<Event>, i: nat) returns (v: nat)
    requires i <= |events| && After(events, i).verified.At?
    ensures After(events, i).means.Some?
    ensures VerifiedBy(events, v, i, After(events, i).means.value)
    ensures events[v].setAt == After(events, i).verified.time
  {
    MarkersExclude(events, i);
    MarkersExclude(events, i - 1);
    if events[i - 1].Verify? && Granted(events, i - 1) {
      v := i - 1;
    } else {
      v := VerifiedHasSource(events, i - 1);
    }
  }

  /** A granted passkey verification spends a ceremony that finished less than 60 seconds before. */
  lemma PasskeyVerifyIsBacked(events: seq<Event>, v: nat) returns (j: nat)
    requires v < |events| && events[v].Verify? && events[v].wanted == "passkey" && Granted(events, v)
    ensures ReadyFrom(events, j, v) && events[v].checkAt - events[j].now < 60
  {
    j := ReadyHasSource(events, v);
    assert After(events, v).ready == At(events[j].now);
  }

  predicate HasValidCode(e: Event) {
    e.Verify? && e.wanted == "2fa" && e.has2FA && e.code != "" && e.codeValid
  }

  ghost predicate HasRecentCeremony(events: seq<Event>, v: nat)
    requires v < |events|
  {
    && events[v].Verify? && events[v].wanted == "passkey" && events[v].hasPasskey && events[v].consumed
    && exists j: nat :: ReadyFrom(events, j, v) && events[v].checkAt - events[j].now < 60
  }

  /** A verification is granted if and only if its session is saved and it shows a valid code or a
      ceremony that finished less than 60 seconds before. */
  lemma VerifyGrantedIff(events: seq<Event>, v: nat)
    requires v < |events| && events[v].Verify?
    ensures Granted(events, v) <==> events[v].stored && (HasValidCode(events[v]) || HasRecentCeremony(events, v))
  {
    if Granted(events, v) && events[v].wanted == "passkey" {
      var j := PasskeyVerifyIsBacked(events, v);
    }
    if HasRecentCeremony(events, v) {
      var j: nat :| ReadyFrom(events, j, v) && events[v].checkAt - events[j].now < 60;
      assert After(events, v).ready == At(events[j].now);
    }
  }

  /** A passkey verification takes the ceremony's marker out of the session, granted or not. */
  predicate Spends(e: Event) { e.Verify? && e.wanted == "passkey" && e.hasPasskey && e.consumed }

  lemma StepKeepsReady(s: Session, e: Event)
    requires s.ready.At?
    requires !((e.PasskeyFinish? || e.Verify?) && Step(s, e).1)
    ensures Step(s, e).0.ready == if Spends(e) then Absent else s.ready
  {
  }

  lemma {:induction false} UnspentStays(events: seq<Event>, j: nat, k: nat)
    requires j < k <= |events| && events[j].PasskeyFinish? && events[j].saved && Quiet(events, j, k)
    requires forall m :: j < m < k ==> !Spends(events[m])
    ensures After(events, k).ready == At(events[j].now)
  {
    if k > j + 1 {
      UnspentStays(events, j, k - 1);
      assert !Writes(events, k - 1);
      StepKeepsReady(After(events, k - 1), events[k - 1]);
    }
  }

  /** A ceremony counts exactly until a marker is written or a passkey verification has tried it. */
  lemma ReadyIff(events: seq<Event>, j: nat, i: nat)
    requires i <= |events|
    ensures ReadyFrom(events, j, i) <==>
      && j < i && events[j].PasskeyFinish? && events[j].saved && Quiet(events, j, i)
      && forall m :: j < m < i ==> !Spends(events[m])
  {
    if ReadyFrom(events, j, i) {
      forall m | j < m < i ensures !Spends(events[m]) {
        assert After(events, m).ready.At? && After(events, m + 1).ready.At?;
        assert !Writes(events, m);
        StepKeepsReady(After(events, m), events[m]);
      }
    } else if j < i && events[j].PasskeyFinish? && events[j].saved && Quiet(events, j, i)
              && forall m :: j < m < i ==> !Spends(events[m]) {
      forall k | j < k <= i ensures After(events, k).ready == At(events[j].now) {
        UnspentStays(events, j, k);
      }
    }
  }

  /** What each request leaves in the session: a granted verification only its own markers, a
      refused one what was there but for the marker it tried, a saved ceremony only its marker, a
      refused check no verification if its session is saved. */
  lemma SessionAfter(events: seq<Event>, i: nat)
    requires i < |events|
    ensures var e, s, t := events[i], After(events, i), After(events, i + 1);
      match e
      case Verify(wanted, _, _, _, _, _, _, setAt, _) =>
        if Granted(events, i) then t == Session(Absent, At(setAt), Some(wanted))
        else t == Session(if Spends(e) then Absent else s.ready, s.verified, s.means)
      case PasskeyFinish(now, saved) => t == (if saved then Session(At(now), Absent, None) else s)
      case Require(wanted, now, saved) =>
        if saved && !(s.verified.At? && now - s.verified.time < 300) then t == Session(s.ready, Absent, None) else t == s
      case Guard(admin, now, saved) =>
        if saved && !admin && !(s.verified.At? && now - s.verified.time < 300) then t == Session(s.ready, Absent, None) else t == s
  {
    MarkersExclude(events, i);
  }

  /** No two granted verifications spend the same ceremony. */
  lemma CeremonyIsSpentOnce(events: seq<Event>, j: nat, v: nat, w: nat)
    requires v < |events| && events[v].Verify? && Granted(events, v) && ReadyFrom(events, j, v)
    requires w < |events| && events[w].Verify? && Granted(events, w) && ReadyFrom(events, j, w)
    ensures v == w
  {
    assert Writes(events, v) && Writes(events, w);
  }

  /** Every accepted check for a method rests on a verification by that method granted less than
      300 seconds before, which showed a valid code or spent a ceremony that was then less than 60
      seconds old. */
  lemma AcceptedCheckIsBacked(events: seq<Event>, i: nat) returns (v: nat)
    requires i < |events| && events[i].Require? && Granted(events, i)
    ensures VerifiedBy(events, v, i, events[i].wanted)
    ensures events[i].now - events[v].setAt < 300
    ensures HasValidCode(events[v]) || HasRecentCeremony(events, v)
  {
    v := VerifiedHasSource(events, i);
    VerifyGrantedIff(events, v);
  }

  // ---------- when exactly a check is accepted ----------

  function First(e: Event): int { if e.Verify? then e.checkAt else e.now }

  function Last(e: Event): int { if e.Verify? then e.setAt else e.now }

  /** The clock does not go back. */
  predicate Monotone(events: seq<Event>) {
    && (forall i :: 0 <= i < |events| ==> First(events[i]) <= Last(events[i]))
    && (forall i, k :: 0 <= i < k < |events| ==> Last(events[i]) <= First(events[k]))
  }

  /** A verification stands until another marker is written or it is old. */
  lemma {:induction false} VerificationStands(events: seq<Event>, v: nat, i: nat, k: nat)
    requires Monotone(events) && v < k <= i < |events| && events[v].Verify?
    requires VerifiedBy(events, v, i, events[v].wanted)
    requires Last(events[i]) - events[v].setAt < 300 && !events[i].Verify?
    ensures After(events, k).verified == At(events[v].setAt) && After(events, k).means == Some(events[v].wanted)
    decreases k
  {
    if k > v + 1 {
      VerificationStands(events, v, i, k - 1);
      MarkersExclude(events, k - 1);
      assert !Writes(events, k - 1);
      assert Last(events[k - 1]) <= First(events[i]);
    }
  }

  /** With a clock that does not go back, a check is accepted if and only if the last marker
      written is a verification by that method, granted less than 300 seconds before. */
  lemma CheckAcceptedIff(events: seq<Event>, i: nat)
    requires Monotone(events) && i < |events| && events[i].Require?
    ensures Granted(events, i) <==>
      exists v: nat :: VerifiedBy(events, v, i, events[i].wanted) && events[i].now - events[v].setAt < 300
  {
    if Granted(events, i) {
      var v := AcceptedCheckIsBacked(events, i);
    }
    if v: nat :| VerifiedBy(events, v, i, events[i].wanted) && events[i].now - events[v].setAt < 300 {
      VerificationStands(events, v, i, i);
    }
  }

  /** The same for the guard that accepts either method and lets administrators through. */
  lemma GuardAcceptedIff(events: seq<Event>, i: nat)
    requires Monotone(events) && i < |events| && events[i].Guard?
    ensures Granted(events, i) <==>
      events[i].admin ||
      exists v: nat :: v < i && events[v].Verify? && VerifiedBy(events, v, i, events[v].wanted)
                       && events[i].now - events[v].setAt < 300
  {
    if Granted(events, i) && !events[i].admin {
      var v := VerifiedHasSource(events, i);
    }
    if v: nat :| v < i && events[v].Verify? && VerifiedBy(events, v, i, events[v].wanted)
                 && events[i].now - events[v].setAt < 300 {
      VerificationStands(events, v, i, i);
    }
  }
}
