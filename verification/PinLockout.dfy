/**
 The PIN lockout and the unlock that drives it. Times are whole seconds; an unlock looks at the
 clock twice, at the lockout check and when a failure is recorded.
 */
module PinLockout {

  const FAILURES_BEFORE_LOCKOUT := 3
  const LOCKOUT := 3600
  const UNLOCK_TTL := 2700

  /** The persisted counter and lockout time (0 for none), and the end of the session, if one is
      open. */
  datatype State = State(failures: int, until: int, session: int)

  /** What an unlock meets after the lockout check: a PIN that is not four digits, a sealed file
      that cannot be used, the wrong PIN, or the right one. */
  datatype Result = Malformed | Unusable | WrongPin | Correct

  /** `Check` is a request that only asks whether it may go on; `Poll` is the status page; `Load`
      reads the wallet, which an open session allows and prolongs; `Sealed`, `Imported` and
      `Removed` are the ends of those three requests. */
  datatype Event =
    | Unlock(checkAt: int, at: int, result: Result)
    | Check(at: int)
    | Poll(at: int)
    | Lock(at: int)
    | Load(at: int)
    | Sealed(at: int)
    | Imported(at: int)
    | Removed(at: int)

  const INITIAL := State(0, 0, 0)

  // ---- specification ----

  predicate Open(s: State, now: int) { s.session != 0 && now < s.session }

  predicate Blocked(s: State, now: int) { s.until > 0 && now < s.until }

  /** What the check and the status page leave: an expired lockout is removed with its counter. */
  function Checked(s: State, now: int): State {
    if s.until > 0 && now >= s.until then s.(failures := 0, until := 0) else s
  }

  function Recorded(s: State, now: int): State {
    if Blocked(s, now) then s else
    var n := s.failures + 1;
    if n >= FAILURES_BEFORE_LOCKOUT then s.(failures := 0, until := now + LOCKOUT) else s.(failures := n, until := if s.until > 0 then 0 else s.until)
  }

  function Unlocked(s: State, e: Event): State
    requires e.Unlock?
  {
    if Blocked(s, e.checkAt) then s else
    var s1 := Checked(s, e.checkAt);
    match e.result
    case Malformed => s1
    case Unusable => s1
    case WrongPin => Recorded(s1, e.at)
    case Correct => State(0, 0, e.at + UNLOCK_TTL)
  }

  function Step(s: State, e: Event): State {
    match e
    case Unlock(_, _, _) => Unlocked(s, e)
    case Check(at) => Checked(s, at)
    case Poll(at) => Checked(s, at)
    case Lock(_) => s.(session := 0)
    case Load(at) => if Open(s, at) then s.(session := at + UNLOCK_TTL) else s
    case Sealed(at) => State(0, 0, at + UNLOCK_TTL)
    case Imported(_) => s.(failures := 0, until := 0)
    case Removed(_) => State(0, 0, 0)
  }

  // ---- the code ----

  class Server {
    var consecutiveFailures: int
    var lockoutUntil: int
    var unlockUntil: int

    function Now(): State
      reads this
    {
      State(consecutiveFailures, lockoutUntil, unlockUntil)
    }

    constructor ()
      ensures Now() == INITIAL
    {
      consecutiveFailures, lockoutUntil, unlockUntil := 0, 0, 0;
    }

    method ClearPINLockoutState()
      modifies this`consecutiveFailures, this`lockoutUntil
      ensures Now() == old(Now()).(failures := 0, until := 0)
    {
      consecutiveFailures, lockoutUntil := 0, 0;
    }

    method PinLockoutCheck(now: int) returns (blocked: bool)
      modifies this`consecutiveFailures, this`lockoutUntil
      ensures blocked <==> Blocked(old(Now()), now)
      ensures Now() == Checked(old(Now()), now)
    {
      if lockoutUntil > 0 {
        if now < lockoutUntil { return true; }
        lockoutUntil := 0;
        consecutiveFailures := 0;
      }
      return false;
    }

    method RecordPINUnlockFailure(now: int) returns (locked: bool)
      modifies this`consecutiveFailures, this`lockoutUntil
      ensures Now() == Recorded(old(Now()), now)
      ensures locked <==> Blocked(old(Now()), now) || old(consecutiveFailures) + 1 >= FAILURES_BEFORE_LOCKOUT
    {
      if lockoutUntil > 0 {
        if now < lockoutUntil { return true; }
        lockoutUntil := 0;
      }
      consecutiveFailures := consecutiveFailures + 1;
      if consecutiveFailures >= FAILURES_BEFORE_LOCKOUT {
        lockoutUntil := now + LOCKOUT;
        consecutiveFailures := 0;
        return true;
      }
      return false;
    }

    method PinLockoutStatus(now: int) returns (locked: bool)
      modifies this`consecutiveFailures, this`lockoutUntil
      ensures locked <==> Blocked(old(Now()), now)
      ensures Now() == Checked(old(Now()), now)
    {
      if lockoutUntil <= 0 { return false; }
      if now >= lockoutUntil {
        lockoutUntil := 0;
        consecutiveFailures := 0;
        return false;
      }
      return true;
    }

    method UnlockSealedWallet(checkAt: int, at: int, result: Result) returns (ok: bool)
      modifies this
      ensures Now() == Step(old(Now()), Unlock(checkAt, at, result))
      ensures ok <==> result == Correct && !Blocked(old(Now()), checkAt)
    {
      var blocked := PinLockoutCheck(checkAt);
      if blocked { return false; }
      match result {
        case Malformed => return false;
        case Unusable => return false;
        case WrongPin =>
          var locked := RecordPINUnlockFailure(at);
          return false;
        case Correct =>
          unlockUntil := at + UNLOCK_TTL;
          ClearPINLockoutState();
          return true;
      }
    }

    /** Reading the wallet: refused without an open session, which it prolongs. */
    method LoadWallet(now: int) returns (ok: bool)
      modifies this`unlockUntil
      ensures ok <==> Open(old(Now()), now)
      ensures Now() == Step(old(Now()), Load(now))
    {
      if unlockUntil == 0 || now >= unlockUntil { return false; }
      TouchUnlockSession(now);
      return true;
    }

    method TouchUnlockSession(now: int)
      modifies this`unlockUntil
      ensures Now() == old(Now()).(session := if old(unlockUntil) != 0 then now + UNLOCK_TTL else 0)
    {
      if unlockUntil != 0 { unlockUntil := now + UNLOCK_TTL; }
    }

    method SealWallet(now: int)
      modifies this
      ensures Now() == Step(old(Now()), Sealed(now))
    {
      ClearPINLockoutState();
      unlockUntil := now + UNLOCK_TTL;
    }

    method RemoveWallet()
      modifies this
      ensures forall at :: Now() == Step(old(Now()), Removed(at))
    {
      LockWalletSession();
      ClearPINLockoutState();
    }

    method LockWalletSession()
      modifies this`unlockUntil
      ensures Now() == old(Now()).(session := 0) && forall at :: Now() == Step(old(Now()), Lock(at))
    {
      unlockUntil := 0;
    }
  }

  // ---- runs ----

  function Run(es: seq<Event>): State {
    if es == [] then INITIAL else Step(Run(es[..|es| - 1]), es[|es| - 1])
  }

  /** An attempt at decryption with a wrong PIN: the lockout check let it through. */
  predicate IsAttempt(s: State, e: Event) { e.Unlock? && e.result == WrongPin && !Blocked(s, e.checkAt) }

  /** The times of the wrong attempts of a run. */
  function Attempts(es: seq<Event>): seq<int> {
    if es == [] then [] else
    var n := |es| - 1;
    Attempts(es[..n]) + if IsAttempt(Run(es[..n]), es[n]) then [es[n].at] else []
  }

  function Begin(e: Event): int { if e.Unlock? then e.checkAt else e.at }

  /** Events follow each other on a non-decreasing clock that has left zero. */
  predicate InOrder(es: seq<Event>) {
    && (forall i | 0 <= i < |es| :: 0 <= Begin(es[i]) <= es[i].at)
    && (forall i, j | 0 <= i < j < |es| :: es[i].at <= Begin(es[j]))
  }

  predicate Resets(e: Event) { e.Sealed? || e.Imported? || e.Removed? }

  predicate NoReset(es: seq<Event>) {
    forall i | 0 <= i < |es| :: !Resets(es[i]) && !(es[i].Unlock? && es[i].result == Correct)
  }

  /** In every run the counter is at most 2, and a lockout that is set leaves it at 0. */
  lemma {:induction false} CounterBounded(es: seq<Event>)
    requires InOrder(es)
    ensures 0 <= Run(es).failures < FAILURES_BEFORE_LOCKOUT && 0 <= Run(es).until
    ensures Run(es).until > 0 ==> Run(es).failures == 0
  {
    if es != [] { CounterBounded(es[..|es| - 1]); }
  }

  predicate LockedOut(s: State, since: int) { s.failures == 0 && s.until == since + LOCKOUT }

  lemma {:induction false} StepLockedOut(s: State, e: Event, since: int)
    requires LockedOut(s, since) && 0 <= since
    requires !Resets(e) && since <= Begin(e) <= e.at < since + LOCKOUT
    ensures LockedOut(Step(s, e), since) && !IsAttempt(s, e)
    ensures s.session <= Begin(e) ==> Step(s, e).session == s.session || Step(s, e).session == 0
  {
  }

  lemma {:induction false} ThirdFailureLocksOut(s: State, e: Event)
    requires IsAttempt(s, e) && s.failures == 2 && (s.until > 0 ==> s.failures == 0)
    ensures LockedOut(Step(s, e), e.at) && Step(s, e).session == s.session
  {
  }

  lemma {:induction false} LockedOutOpens(s: State, since: int, u: Event)
    requires LockedOut(s, since) && 0 <= since && u.Unlock? && u.result == Correct
    ensures Step(s, u) == if u.checkAt < since + LOCKOUT then s else State(0, 0, u.at + UNLOCK_TTL)
  {
  }

  lemma {:induction false} RunOneMore(es: seq<Event>, e: Event)
    ensures Run(es + [e]) == Step(Run(es), e)
    ensures Attempts(es + [e]) == Attempts(es) + if IsAttempt(Run(es), e) then [e.at] else []
  {
    assert (es + [e])[..|es|] == es;
  }

  lemma {:induction false} RunUnderLockout(es: seq<Event>, since: int, now: int, more: seq<Event>)
    requires LockedOut(Run(es), since) && 0 <= since <= now
    requires forall m | m in more :: !Resets(m) && now <= Begin(m) <= m.at < since + LOCKOUT
    ensures LockedOut(Run(es + more), since) && Attempts(es + more) == Attempts(es)
    ensures Run(es).session <= now ==> Run(es + more).session == Run(es).session || Run(es + more).session == 0
    decreases |more|
  {
    hide Step, IsAttempt, Attempts, LockedOut;
    if more == [] {
      assert es + more == es;
    } else {
      var n := |more| - 1;
      RunUnderLockout(es, since, now, more[..n]);
      RunOneMore(es + more[..n], more[n]);
      assert es + more[..n] + [more[n]] == es + more;
      StepLockedOut(Run(es + more[..n]), more[n], since);
      assert Attempts(es) + [] == Attempts(es);
    }
  }

  /** After the third failure, whatever follows within the hour short of a reset: nothing is
      counted or attempted, and the next right PIN opens a session exactly when its check comes
      after the hour. */
  lemma {:induction false} LockedOutStaysLocked(es: seq<Event>, e: Event, more: seq<Event>)
    requires InOrder(es + [e] + more) && IsAttempt(Run(es), e) && Run(es).failures == 2
    requires forall m | m in more :: !Resets(m) && m.at < e.at + 3600
    ensures var s := Run(es + [e] + more);
      && LockedOut(s, e.at) && Attempts(es + [e] + more) == Attempts(es) + [e.at]
      && forall u: Event | u.Unlock? && u.result == Correct ::
           Step(s, u) == if u.checkAt < e.at + 3600 then s else State(0, 0, u.at + 2700)
  {
    hide Step, IsAttempt, Attempts, LockedOut;
    var all := es + [e] + more;
    assert all[|es|] == e;
    assert forall i | 0 <= i < |more| :: all[|es| + 1 + i] == more[i];
    assert forall i | 0 <= i < |es| :: all[i] == es[i];
    CounterBounded(es);
    RunOneMore(es, e);
    ThirdFailureLocksOut(Run(es), e);
    RunUnderLockout(es + [e], e.at, e.at, more);
    forall u: Event | u.Unlock? && u.result == Correct
      ensures Step(Run(all), u) == if u.checkAt < e.at + LOCKOUT then Run(all) else State(0, 0, u.at + UNLOCK_TTL)
    {
      LockedOutOpens(Run(all), e.at, u);
    }
  }

  lemma {:induction false} InOrderSplits(head: seq<Event>, late: seq<Event>)
    requires InOrder(head + late) && head != []
    ensures InOrder(head) && forall m | m in late :: head[|head| - 1].at <= Begin(m) <= m.at
  {
    var all := head + late;
    assert forall i | 0 <= i < |head| :: all[i] == head[i];
    assert forall i | 0 <= i < |late| :: all[|head| + i] == late[i];
  }

  /** Nor does a session open in that hour: one that is over after some of those events is never
      prolonged or replaced by later ones. */
  lemma {:induction false} NoSessionOpensInLockout(es: seq<Event>, e: Event, early: seq<Event>, late: seq<Event>)
    requires var head := es + [e] + early; InOrder(head + late) && Run(head).session <= head[|head| - 1].at
    requires IsAttempt(Run(es), e) && Run(es).failures == 2
    requires forall m | m in early || m in late :: !Resets(m) && m.at < e.at + LOCKOUT
    ensures var head := es + [e] + early;
      Run(head + late).session == Run(head).session || Run(head + late).session == 0
  {
    hide Step, IsAttempt, Attempts, LockedOut, InOrder;
    var head := es + [e] + early;
    InOrderSplits(head, late);
    LockedOutStaysLocked(es, e, early);
    InOrderSplits(es + [e], early);
    assert (es + [e])[|es|] == e;
    if early != [] { assert head[|head| - 1] == early[|early| - 1]; }
    FirstIsPast(es, e);
    RunUnderLockout(head, e.at, head[|head| - 1].at, late);
  }

  lemma {:induction false} FirstIsPast(es: seq<Event>, e: Event)
    requires InOrder(es + [e])
    ensures 0 <= e.at
  {
    assert (es + [e])[|es|] == e;
  }

  /** An attempt and the third before it are a lockout apart. */
  predicate Spaced(a: seq<int>) {
    && (forall i, j | 0 <= i < j < |a| :: a[i] <= a[j])
    && (forall i | 0 <= i && i + 3 < |a| :: a[i] + LOCKOUT <= a[i + 3])
  }

  /** The attempts since the last lockout are the counter; before them stands the attempt that
      set it, and its lockout is either still set or over. */
  ghost predicate Accounted(s: State, a: seq<int>, now: int) {
    && Spaced(a) && (a != [] ==> a[|a| - 1] <= now)
    && 0 <= s.failures <= |a| && s.failures < 3 && (s.until > 0 ==> s.failures == 0)
    && (s.until > 0 ==> a != [] && s.until == a[|a| - 1] + LOCKOUT)
    && (s.until <= 0 && |a| > s.failures ==> a[|a| - 1 - s.failures] + LOCKOUT <= now)
  }

  lemma {:induction false} AttemptAccounted(s: State, a: seq<int>, now: int, e: Event)
    requires Accounted(s, a, now) && IsAttempt(s, e) && now <= e.checkAt <= e.at && 0 <= e.at
    ensures Accounted(Step(s, e), a + [e.at], e.at)
  {
    var s1 := Checked(s, e.checkAt);
    assert s1.until <= 0 && Accounted(s1, a, e.checkAt);
    var b := a + [e.at];
    if |a| >= 3 { assert a[|a| - 3] <= a[|a| - 1 - s1.failures]; }
    assert Spaced(b);
  }

  /** An event that is no attempt leaves counter and lockout, or removes them when the lockout is
      over. */
  lemma {:induction false} QuietStep(s: State, e: Event)
    requires !Resets(e) && !(e.Unlock? && e.result == Correct) && !IsAttempt(s, e) && Begin(e) <= e.at
    ensures var r := Step(s, e);
      || (r.failures == s.failures && r.until == s.until)
      || (r.failures == r.until == 0 && 0 < s.until <= e.at)
  {
  }

  lemma {:induction false} StepAccounted(s: State, a: seq<int>, now: int, e: Event)
    requires Accounted(s, a, now) && now <= Begin(e) <= e.at && 0 <= e.at
    requires !Resets(e) && !(e.Unlock? && e.result == Correct)
    ensures Accounted(Step(s, e), a + if IsAttempt(s, e) then [e.at] else [], e.at)
  {
    hide Step, Spaced;
    if IsAttempt(s, e) {
      AttemptAccounted(s, a, now, e);
    } else {
      QuietStep(s, e);
      assert a + [] == a;
    }
  }

  lemma {:induction false} RunAccounted(es: seq<Event>, now: int)
    requires InOrder(es) && NoReset(es) && (es != [] ==> es[|es| - 1].at <= now)
    ensures Accounted(Run(es), Attempts(es), now)
    decreases |es|
  {
    if es != [] {
      hide Step, IsAttempt, Accounted;
      var n := |es| - 1;
      RunAccounted(es[..n], Begin(es[n]));
      StepAccounted(Run(es[..n]), Attempts(es[..n]), Begin(es[n]), es[n]);
      StaysAccounted(Run(es), Attempts(es), es[n].at, now);
    }
  }

  lemma {:induction false} StaysAccounted(s: State, a: seq<int>, now: int, later: int)
    requires Accounted(s, a, now) && now <= later
    ensures Accounted(s, a, later)
  {
  }

  // ---- the bound ----

  /** How many of the times lie in the half-open window. */
  function CountIn(a: seq<int>, lo: int, hi: int): nat {
    if a == [] then 0 else CountIn(a[..|a| - 1], lo, hi) + if lo <= a[|a| - 1] < hi then 1 else 0
  }

  lemma {:induction false} NoneBelow(a: seq<int>, lo: int, hi: int)
    requires forall i | 0 <= i < |a| :: a[i] < lo
    ensures CountIn(a, lo, hi) == 0
  {
    if a != [] { NoneBelow(a[..|a| - 1], lo, hi); }
  }

  lemma {:induction false} CountOfPrefix(a: seq<int>, k: nat, lo: int, hi: int)
    requires k <= |a|
    ensures CountIn(a, lo, hi) <= CountIn(a[..|a| - k], lo, hi) + k
  {
    if k == 0 {
      assert a[..|a|] == a;
    } else {
      CountOfPrefix(a[..|a| - 1], k - 1, lo, hi);
      assert a[..|a| - 1][..|a| - k] == a[..|a| - k];
    }
  }

  lemma {:induction false} SpacedAtMostThree(a: seq<int>, lo: int)
    requires Spaced(a)
    ensures CountIn(a, lo, lo + LOCKOUT) <= 3
  {
    if a != [] {
      var n := |a| - 1;
      if a[n] >= lo + LOCKOUT || n < 3 {
        if n < 3 { CountOfPrefix(a, |a|, lo, lo + LOCKOUT); } else { SpacedAtMostThree(a[..n], lo); }
      } else {
        assert forall i | 0 <= i <= n - 3 :: a[i] <= a[n - 3] < lo;
        NoneBelow(a[..|a| - 3], lo, lo + LOCKOUT);
        CountOfPrefix(a, 3, lo, lo + LOCKOUT);
      }
    }
  }

  /** Without a successful unlock or a reset, no hour holds more than three wrong attempts. */
  lemma {:induction false} AtMostThreePerHour(es: seq<Event>, start: int)
    requires InOrder(es) && NoReset(es)
    ensures CountIn(Attempts(es), start, start + 3600) <= 3
  {
    RunAccounted(es, if es == [] then 0 else es[|es| - 1].at);
    SpacedAtMostThree(Attempts(es), start);
  }

  // ---- what counts, and what forgives ----

  /** One recorded failure, with an expired lockout put aside: the third sets an hour, the others
      are counted, and none counts during a lockout. */
  lemma {:induction false} FailureCounts(s: State, now: int)
    requires 0 <= s.failures <= 2 && 0 <= s.until && 0 <= now
    ensures Recorded(s, now) ==
      if s.until > now then s
      else if s.failures == 2 then State(0, now + 3600, s.session)
      else State(s.failures + 1, 0, s.session)
  {
  }

  /** Sealing, importing, removing and a right PIN leave no failure and no lockout behind. */
  lemma {:induction false} ResetForgives(es: seq<Event>, e: Event)
    requires e.Sealed? || e.Imported? || e.Removed? || (e.Unlock? && e.result == Correct && !Blocked(Run(es), e.checkAt))
    ensures Run(es + [e]).failures == 0 && Run(es + [e]).until == 0
  {
    RunOneMore(es, e);
  }

  // ---- when a session is open ----

  /** Event k opens or prolongs a session: a right PIN that is let through, sealing, or a load while
      one is open. */
  predicate Grants(es: seq<Event>, k: nat)
    requires k < |es|
  {
    var e := es[k];
    || e.Sealed?
    || (e.Unlock? && e.result == Correct && !(Run(es[..k]).until > 0 && e.checkAt < Run(es[..k]).until))
    || (e.Load? && Run(es[..k]).session != 0 && e.at < Run(es[..k]).session)
  }

  predicate Ends(e: Event) { e.Lock? || e.Removed? }

  /** Event k is the last to grant a session, and none has ended it since. */
  ghost predicate LastGrant(es: seq<Event>, k: nat) {
    k < |es| && Grants(es, k) && forall j | k < j < |es| :: !Grants(es, j) && !Ends(es[j])
  }

  lemma {:induction false} GrantsOfPrefix(es: seq<Event>, n: nat, k: nat)
    requires k < n <= |es|
    ensures Grants(es[..n], k) <==> Grants(es, k)
  {
    assert es[..n][..k] == es[..k];
  }

  lemma {:induction false} NoGrantYet(es: seq<Event>)
    requires InOrder(es) && forall k | 0 <= k < |es| :: !LastGrant(es, k)
    ensures Run(es).session == 0
  {
    if es != [] {
      hide Grants;
      var n := |es| - 1;
      assert forall k | 0 <= k < n :: LastGrant(es[..n], k) && !Grants(es, n) && !Ends(es[n]) ==> LastGrant(es, k) by { GrantsStay(es); }
      SessionStep(es);
      GrantAtEnd(es);
      if !Ends(es[n]) {
        GrantsStay(es);
        NoGrantYet(es[..n]);
      }
    }
  }

  lemma {:induction false} GrantAtEnd(es: seq<Event>)
    requires es != []
    ensures Grants(es, |es| - 1) ==> LastGrant(es, |es| - 1)
  {
  }

  lemma {:induction false} GrantsStay(es: seq<Event>)
    requires es != []
    ensures forall k | 0 <= k < |es| - 1 :: Grants(es[..|es| - 1], k) <==> Grants(es, k)
  {
    forall k | 0 <= k < |es| - 1 ensures Grants(es[..|es| - 1], k) <==> Grants(es, k) { GrantsOfPrefix(es, |es| - 1, k); }
  }

  lemma {:induction false} SessionStep(es: seq<Event>)
    requires es != [] && InOrder(es)
    ensures var n := |es| - 1;
      Run(es).session == if Grants(es, n) then es[n].at + 2700 else if Ends(es[n]) then 0 else Run(es[..n]).session
  {
  }

  lemma {:induction false} LastGrantBefore(es: seq<Event>, k: nat)
    requires LastGrant(es, k) && k < |es| - 1
    ensures LastGrant(es[..|es| - 1], k) && !Grants(es, |es| - 1) && !Ends(es[|es| - 1])
  {
    hide Grants;
    var n := |es| - 1;
    GrantsStay(es);
    forall j | k < j < n ensures !Grants(es[..n], j) && !Ends(es[..n][j]) {
      assert !Grants(es, j) && !Ends(es[j]);
    }
  }

  lemma {:induction false} GrantIsSession(es: seq<Event>, k: nat)
    requires InOrder(es) && LastGrant(es, k)
    ensures Run(es).session == es[k].at + 2700
  {
    hide Grants;
    var n := |es| - 1;
    SessionStep(es);
    if k < n {
      LastGrantBefore(es, k);
      GrantIsSession(es[..n], k);
    }
  }

  /** In every run a session is open exactly for 45 minutes after the last event that granted one,
      unless a lock or a removal came since. */
  lemma {:induction false} SessionOpenIff(es: seq<Event>, now: int)
    requires InOrder(es) && 0 <= now
    ensures Open(Run(es), now) <==> exists k: nat :: LastGrant(es, k) && now < es[k].at + 2700
  {
    hide Grants, LastGrant;
    if k: nat :| LastGrant(es, k) {
      GrantIsSession(es, k);
      LastGrantIsOne(es);
    } else {
      NoGrantYet(es);
    }
  }

  lemma {:induction false} LastGrantIsOne(es: seq<Event>)
    ensures forall k: nat, j: nat | LastGrant(es, k) && LastGrant(es, j) :: j == k
    ensures forall k: nat | LastGrant(es, k) :: k < |es|
  {
  }
}
