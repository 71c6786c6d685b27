/**
 * The break-glass account's lockout (portal/localadmin.go): ten failed verifications lock the
 * account for fifteen minutes. The counter does not know about time; the bound proved here does.
 */
module LocalAdmin {
  import opened Common

  const MAX_FAILURES: nat := 10
  const LOCKOUT: nat := 900 * SECOND

  /** The columns of a local_admin row that authentication reads and writes. */
  datatype Account = Account(enabled: bool, failedAttempts: nat, lockedUntil: Option<Time>, lastLogin: Option<Time>)

  /** What createLocalAdmin stores. */
  const CREATED: Account := Account(true, 0, None, None)

  datatype Outcome = Disabled | LockedOut | WrongPassword | Granted

  predicate IsLocked(a: Account, now: Time) {
    a.lockedUntil.Some? && now < a.lockedUntil.value
  }

  /** One attempt: `check` is read at the lock test, `now` after the verification. */
  function Attempt(a: Account, correct: bool, check: Time, now: Time): (Account, Outcome) {
    if !a.enabled then (a, Disabled)
    else if IsLocked(a, check) then (a, LockedOut)
    else if correct then (a.(failedAttempts := 0, lockedUntil := None, lastLogin := Some(now)), Granted)
    else if a.failedAttempts + 1 >= MAX_FAILURES then
      (a.(failedAttempts := 0, lockedUntil := Some(now + LOCKOUT)), WrongPassword)
    else (a.(failedAttempts := a.failedAttempts + 1), WrongPassword)
  }

  class AccountRow {
    var row: Account

    constructor ()
      ensures row == CREATED
    {
      row := CREATED;
    }

    /** authenticateLocalAdmin for an existing account; `correct` is what verifyPassword answered. */
    method Authenticate(correct: bool, check: Time, now: Time) returns (o: Outcome)
      modifies this
      ensures (row, o) == Attempt(old(row), correct, check, now)
      ensures o == Granted <==> old(row.enabled) && correct && !IsLocked(old(row), check)
      ensures o == Disabled || o == LockedOut ==> row == old(row)
    {
      if !row.enabled {
        return Disabled;
      }
      if row.lockedUntil.Some? && check < row.lockedUntil.value {
        return LockedOut;
      }
      if !correct {
        row := row.(failedAttempts := row.failedAttempts + 1);
        if row.failedAttempts >= MAX_FAILURES {
          row := row.(lockedUntil := Some(now + LOCKOUT), failedAttempts := 0);
        }
        return WrongPassword;
      }
      row := row.(failedAttempts := 0, lockedUntil := None, lastLogin := Some(now));
      o := Granted;
    }
  }

  // ----- runs of attempts -----

  /** A request: its password is right or wrong, verified at some instant between the two readings. */
  datatype Request = Request(correct: bool, check: Time, verified: Time, now: Time)

  /** Requests are served one after another and none of them signs in. */
  ghost predicate Serialised(rs: seq<Request>) {
    && (forall i :: 0 <= i < |rs| ==> rs[i].check <= rs[i].verified <= rs[i].now)
    && (forall i, j :: 0 <= i < j < |rs| ==> rs[i].now <= rs[j].check)
  }

  function After(a: Account, rs: seq<Request>): Account {
    if rs == [] then a
    else Attempt(After(a, rs[..|rs| - 1]), rs[|rs| - 1].correct, rs[|rs| - 1].check, rs[|rs| - 1].now).0
  }

  function OutcomeOf(a: Account, rs: seq<Request>): Outcome
    requires rs != []
  {
    Attempt(After(a, rs[..|rs| - 1]), rs[|rs| - 1].correct, rs[|rs| - 1].check, rs[|rs| - 1].now).1
  }

  predicate NoSuccess(a: Account, rs: seq<Request>) {
    rs == [] || (NoSuccess(a, rs[..|rs| - 1]) && OutcomeOf(a, rs) != Granted)
  }

  /** The instants at which a password was verified and found wrong. */
  function Failures(a: Account, rs: seq<Request>): seq<Time> {
    if rs == [] then []
    else
      var before := Failures(a, rs[..|rs| - 1]);
      if OutcomeOf(a, rs) == WrongPassword then before + [rs[|rs| - 1].verified] else before
  }

  /** The i-th request of the run was answered "wrong password". */
  predicate FailsAt(a: Account, rs: seq<Request>, i: nat)
    requires i < |rs|
  {
    OutcomeOf(a, rs[..i + 1]) == WrongPassword
  }

  lemma FailuresGrow(a: Account, rs: seq<Request>, n: nat)
    requires 0 < n <= |rs|
    ensures |Failures(a, rs[..n])| == |Failures(a, rs[..n - 1])| + if FailsAt(a, rs, n - 1) then 1 else 0
  {
    assert rs[..n][..n - 1] == rs[..n - 1];
  }

  /** Whether the i-th request was answered "wrong password". */
  function FailsIn(a: Account, rs: seq<Request>): nat -> bool {
    (i: nat) => i < |rs| && FailsAt(a, rs, i)
  }

  /** The failures among the first n requests are those answered "wrong password", each once. */
  lemma {:induction false} FailuresCount(a: Account, rs: seq<Request>, n: nat)
    requires n <= |rs|
    ensures |Failures(a, rs[..n])| == |Hits(FailsIn(a, rs), n)|
  {
    if n == 0 {
      assert Hits(FailsIn(a, rs), 0) == {};
    } else {
      FailuresCount(a, rs, n - 1);
      FailuresGrow(a, rs, n);
      HitsGrow(FailsIn(a, rs), n - 1);
    }
  }

  /**
   * What a run keeps: failures are in order; the i-th failure in the account's life is followed by a
   * pause of LOCKOUT whenever it completes a batch of ten; the row knows where the batch stands and
   * until when the pause lasts. `start` is the row's counter when the run began.
   */
  ghost predicate Paced(fs: seq<Time>, start: nat) {
    && (forall i, j :: 0 <= i < j < |fs| ==> fs[i] <= fs[j])
    && (forall i :: 0 <= i < |fs| - 1 && EndsBatch(start, i) ==> fs[i] + LOCKOUT <= fs[i + 1])
  }

  predicate EndsBatch(start: nat, i: nat) {
    (start + i + 1) % MAX_FAILURES == 0
  }

  ghost predicate Tracks(a: Account, fs: seq<Time>, start: nat, clock: Time) {
    && Paced(fs, start)
    && a.failedAttempts == (start + |fs|) % MAX_FAILURES
    && (fs != [] ==> fs[|fs| - 1] <= clock)
    && (fs != [] && EndsBatch(start, |fs| - 1) ==> a.lockedUntil.Some? && fs[|fs| - 1] + LOCKOUT <= a.lockedUntil.value)
  }

  function ClockOf(rs: seq<Request>): Time {
    if rs == [] then 0 else rs[|rs| - 1].now
  }

  lemma NextInBatch(k: nat)
    ensures (k + 1) % MAX_FAILURES == if k % MAX_FAILURES + 1 == MAX_FAILURES then 0 else k % MAX_FAILURES + 1
  {
  }

  /** A failed verification extends the paced sequence by one. */
  lemma FailureIsPaced(a: Account, fs: seq<Time>, start: nat, clock: Time, r: Request)
    requires Tracks(a, fs, start, clock) && clock <= r.check <= r.verified <= r.now
    requires Attempt(a, r.correct, r.check, r.now).1 == WrongPassword
    ensures Tracks(Attempt(a, r.correct, r.check, r.now).0, fs + [r.verified], start, r.now)
  {
    NextInBatch(start + |fs|);
    var fs' := fs + [r.verified];
    forall i | 0 <= i < |fs'| - 1 && EndsBatch(start, i) ensures fs'[i] + LOCKOUT <= fs'[i + 1] {
    }
  }

  lemma {:induction false} RunIsPaced(a: Account, rs: seq<Request>)
    requires a.failedAttempts < MAX_FAILURES && Serialised(rs) && NoSuccess(a, rs)
    ensures Tracks(After(a, rs), Failures(a, rs), a.failedAttempts, ClockOf(rs))
  {
    if rs != [] {
      var init, r := rs[..|rs| - 1], rs[|rs| - 1];
      RunIsPaced(a, init);
      assert ClockOf(init) <= r.check;
      RequestIsPaced(After(a, init), Failures(a, init), a.failedAttempts, ClockOf(init), r);
    }
  }

  /** One request: a failure adds to the sequence, a refusal leaves the row as it was. */
  lemma RequestIsPaced(a: Account, fs: seq<Time>, start: nat, clock: Time, r: Request)
    requires Tracks(a, fs, start, clock) && clock <= r.check <= r.verified <= r.now
    requires Attempt(a, r.correct, r.check, r.now).1 != Granted
    ensures var (a', o) := Attempt(a, r.correct, r.check, r.now);
            Tracks(a', if o == WrongPassword then fs + [r.verified] else fs, start, r.now)
  {
    if Attempt(a, r.correct, r.check, r.now).1 == WrongPassword {
      FailureIsPaced(a, fs, start, clock, r);
    }
  }

  // ----- the bound -----

  /** Ten consecutive failures take at least one lockout. */
  lemma TenTakeALockout(fs: seq<Time>, start: nat, i: nat)
    requires Paced(fs, start) && i + MAX_FAILURES < |fs|
    ensures fs[i] + LOCKOUT <= fs[i + MAX_FAILURES]
  {
    var j := i + (2 * MAX_FAILURES - 1 - (start + i) % MAX_FAILURES) % MAX_FAILURES;
    BatchEndNear(start, i, j);
    assert fs[j] + LOCKOUT <= fs[j + 1];
    assert i == j || fs[i] <= fs[j];
    assert j + 1 == i + MAX_FAILURES || fs[j + 1] <= fs[i + MAX_FAILURES];
  }

  lemma BatchEndNear(start: nat, i: nat, j: int)
    requires j == i + (2 * MAX_FAILURES - 1 - (start + i) % MAX_FAILURES) % MAX_FAILURES
    ensures i <= j < i + MAX_FAILURES && EndsBatch(start, j)
  {
  }

  lemma {:induction false} BatchesTakeLockouts(fs: seq<Time>, start: nat, i: nat, m: nat)
    requires Paced(fs, start) && i + MAX_FAILURES * m < |fs|
    ensures fs[i] + LOCKOUT * m <= fs[i + MAX_FAILURES * m]
  {
    if m > 0 {
      BatchesTakeLockouts(fs, start, i, m - 1);
      TenTakeALockout(fs, start, i + MAX_FAILURES * (m - 1));
    }
  }

  /** How many of the times lie in [from, from + len). */
  function CountIn(fs: seq<Time>, from: int, len: nat): nat {
    if fs == [] then 0 else CountIn(fs[..|fs| - 1], from, len) + if from <= fs[|fs| - 1] < from + len then 1 else 0
  }

  /** CountIn is a count: of the first n times, as many as there are positions with one in the interval. */
  lemma {:induction false} CountInCounts(fs: seq<Time>, from: int, len: nat, n: nat)
    requires n <= |fs|
    ensures CountIn(fs[..n], from, len) == |set i: nat | i < n && from <= fs[i] < from + len|
  {
    var all := set i: nat | i < n && from <= fs[i] < from + len;
    if n == 0 {
      assert all == {};
    } else {
      CountInCounts(fs, from, len, n - 1);
      assert fs[..n][..n - 1] == fs[..n - 1];
      var rest := set i: nat | i < n - 1 && from <= fs[i] < from + len;
      if from <= fs[n - 1] < from + len {
        assert all == rest + {n - 1};
      } else {
        assert all == rest;
      }
    }
  }

  /** In a sorted sequence the members of an interval are consecutive. */
  lemma {:induction false} CountIsConsecutive(fs: seq<Time>, from: int, len: nat) returns (lo: nat)
    requires forall i, j :: 0 <= i < j < |fs| ==> fs[i] <= fs[j]
    ensures lo + CountIn(fs, from, len) <= |fs|
    ensures CountIn(fs, from, len) > 0 ==> from <= fs[lo] && fs[lo + CountIn(fs, from, len) - 1] < from + len
    ensures CountIn(fs, from, len) > 0 && fs[|fs| - 1] < from + len ==> lo + CountIn(fs, from, len) == |fs|
  {
    if fs == [] {
      lo := 0;
    } else {
      var init := fs[..|fs| - 1];
      lo := CountIsConsecutive(init, from, len);
      if CountIn(init, from, len) == 0 {
        lo := |fs| - CountIn(fs, from, len);
      }
    }
  }

  lemma LockoutsCover(len: nat, m: nat)
    requires m == len / LOCKOUT + 1
    ensures len < LOCKOUT * m
  {
  }

  lemma PacedIsSparse(fs: seq<Time>, start: nat, from: int, len: nat, m: nat)
    requires Paced(fs, start) && len < LOCKOUT * m
    ensures CountIn(fs, from, len) <= MAX_FAILURES * m
  {
    var lo := CountIsConsecutive(fs, from, len);
    var n := CountIn(fs, from, len);
    if n > MAX_FAILURES * m {
      BatchesTakeLockouts(fs, start, lo, m);
    }
  }

  /**
   * For requests served one at a time on an account that is not signed into or reset meanwhile, any
   * half-open interval of length `len` holds at most 10 * (len / 15 min + 1) failed verifications.
   */
  lemma LockoutBoundsGuessing(a: Account, rs: seq<Request>, from: int, len: nat)
    requires a.failedAttempts < MAX_FAILURES && Serialised(rs) && NoSuccess(a, rs)
    ensures CountIn(Failures(a, rs), from, len) <= 10 * (len / (15 * 60 * SECOND) + 1)
  {
    RunIsPaced(a, rs);
    LockoutsCover(len, len / LOCKOUT + 1);
    PacedIsSparse(Failures(a, rs), a.failedAttempts, from, len, len / LOCKOUT + 1);
  }

  /** Every row this code ever writes keeps the counter below the threshold, so the bound always applies. */
  lemma {:induction false} CounterStaysBelowThreshold(rs: seq<Request>)
    ensures After(CREATED, rs).failedAttempts < MAX_FAILURES
  {
    if rs != [] {
      CounterStaysBelowThreshold(rs[..|rs| - 1]);
    }
  }

  // ----- what the lockout does to the right password -----

  /**
   * An attempt is granted exactly when the account is enabled, the password right and no lockout running;
   * a refusal before the password is looked at leaves the row alone.
   */
  lemma GrantedExactlyWhen(a: Account, correct: bool, check: Time, now: Time)
    ensures Attempt(a, correct, check, now).1 == Granted <==>
            a.enabled && correct && !(a.lockedUntil.Some? && check < a.lockedUntil.value)
    ensures !a.enabled || (a.lockedUntil.Some? && check < a.lockedUntil.value) ==>
              Attempt(a, correct, check, now).0 == a && Attempt(a, correct, check, now).1 in {Disabled, LockedOut}
  {
  }

  /** A success restarts the count and ends the lockout. */
  lemma SuccessRestartsTheCount(a: Account, correct: bool, check: Time, now: Time)
    requires Attempt(a, correct, check, now).1 == Granted
    ensures Attempt(a, correct, check, now).0 == Account(true, 0, None, Some(now))
  {
  }

  /** The i-th request is the tenth failure of a batch: it locks the account. */
  predicate Locks(a: Account, rs: seq<Request>, i: nat)
    requires i < |rs|
  {
    OutcomeOf(a, rs[..i + 1]) == WrongPassword && After(a, rs[..i]).failedAttempts + 1 >= MAX_FAILURES
  }

  lemma {:induction false} LockHolds(a: Account, rs: seq<Request>, i: nat, j: nat)
    requires i < j <= |rs| && Locks(a, rs, i)
    requires forall k :: i < k < j ==> rs[k].check < rs[i].now + LOCKOUT
    ensures After(a, rs[..j]).lockedUntil == Some(rs[i].now + LOCKOUT)
    ensures After(a, rs[..j]).enabled
  {
    assert rs[..j][..j - 1] == rs[..j - 1];
    if j > i + 1 {
      LockHolds(a, rs, i, j - 1);
      GrantedExactlyWhen(After(a, rs[..j - 1]), rs[j - 1].correct, rs[j - 1].check, rs[j - 1].now);
    }
  }

  /** Within a lockout nobody gets in, not even with the right password, and nothing is counted. */
  lemma NoOneGetsInDuringLockout(a: Account, rs: seq<Request>, i: nat, j: nat)
    requires Serialised(rs) && i < j < |rs| && Locks(a, rs, i) && rs[j].check < rs[i].now + 15 * 60 * SECOND
    ensures OutcomeOf(a, rs[..j + 1]) == LockedOut
    ensures After(a, rs[..j + 1]) == After(a, rs[..j])
  {
    forall k | i < k < j ensures rs[k].check < rs[i].now + LOCKOUT {
      assert rs[k].now <= rs[j].check;
    }
    LockHolds(a, rs, i, j);
    assert rs[..j + 1][..j] == rs[..j];
  }

  /** A wrong password locks the account for fifteen minutes exactly when it is the tenth of its batch. */
  lemma TheTenthFailureLocks(a: Account, check: Time, now: Time)
    requires a.enabled && !IsLocked(a, check) && a.failedAttempts < 10
    ensures var a' := Attempt(a, false, check, now).0;
            && (a.failedAttempts == 9 ==> a'.failedAttempts == 0 && a'.lockedUntil == Some(now + 15 * 60 * SECOND))
            && (a.failedAttempts < 9 ==> a'.failedAttempts == a.failedAttempts + 1 && a'.lockedUntil == a.lockedUntil)
            && a'.enabled && a'.lastLogin == a.lastLogin
  {
  }

  /** When the fifteen minutes are over the right password gets in again. */
  lemma LockoutEnds(a: Account, rs: seq<Request>, i: nat, j: nat)
    requires Serialised(rs) && i < j < |rs| && Locks(a, rs, i)
    requires forall k :: i < k < j ==> rs[k].check < rs[i].now + 15 * 60 * SECOND
    requires rs[j].correct && rs[i].now + 15 * 60 * SECOND <= rs[j].check
    ensures OutcomeOf(a, rs[..j + 1]) == Granted
  {
    LockHolds(a, rs, i, j);
    assert rs[..j + 1][..j] == rs[..j];
  }

}
