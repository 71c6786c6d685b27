/**
 * Commit-confirm (portal/tls.go:250-324). A risky listener change arms a rollback that a timer
 * runs unless the operator confirms first. Stopping a timer does not recall a callback that has
 * already fired and is waiting for the mutex, so the steps below let every fired callback arrive
 * at any later moment.
 */
module ListenerCommit {
  import opened Common

  const CONFIRM_WINDOW: nat := 120 * SECOND

  /**
   * The mutex-protected fields. A rollback closure is named by the change it undoes, and a timer
   * by the change that armed it.
   */
  datatype Commit = Commit(pending: bool, deadline: Time, rollback: Option<nat>, timer: Option<nat>)

  const INITIAL: Commit := Commit(false, 0, None, None)

  function Begun(c: Commit, change: nat, now: Time): Commit {
    Commit(true, now + CONFIRM_WINDOW, Some(change), Some(change))
  }

  function Confirmed(c: Commit): Commit {
    if c.pending then c.(pending := false, rollback := None) else c
  }

  /** The locked part of a timer callback, and the rollback it then runs. */
  function Called(c: Commit): (Commit, Option<nat>) {
    if c.pending then (c.(pending := false), c.rollback) else (c, None)
  }

  class Guard {
    var pending: bool
    var deadline: Time
    var rollback: Option<nat>
    var timer: Option<nat>

    function State(): Commit
      reads this
    {
      Commit(pending, deadline, rollback, timer)
    }

    constructor ()
      ensures State() == INITIAL
    {
      pending, deadline, rollback, timer := false, 0, None, None;
    }

    /** Arms `change`; `stopped` is the timer that is told to stop. */
    method Begin(change: nat, now: Time) returns (d: Time, stopped: Option<nat>)
      modifies this
      ensures State() == Begun(old(State()), change, now) && d == deadline && stopped == old(timer)
    {
      stopped := timer;
      pending := true;
      deadline := now + CONFIRM_WINDOW;
      rollback := Some(change);
      timer := Some(change);
      d := deadline;
    }

    method Callback() returns (run: Option<nat>)
      modifies this
      ensures (State(), run) == Called(old(State()))
    {
      if !pending {
        return None;
      }
      pending := false;
      run := rollback;
    }

    method Confirm() returns (ok: bool, stopped: Option<nat>)
      modifies this
      ensures State() == Confirmed(old(State())) && ok == old(pending)
      ensures stopped == if ok then old(timer) else None
    {
      if !pending {
        return false, None;
      }
      pending := false;
      rollback := None;
      return true, timer;
    }
  }

  // ----- the protocol with its timers -----

  /** A timer counts down, then its callback waits for the mutex, then it has run; or it was stopped in time. */
  datatype Timer = Armed | Waiting | Done | Stopped

  /** What became of a change. `via` is the timer whose callback rolled it back. */
  datatype Fate = Pending | ConfirmedByOperator | Superseded | RolledBack(via: nat, at: Time)

  /** Whose settings are in force: a change's own, or those its rollback restored. */
  datatype Settings = Original | Of(change: nat) | Before(change: nat)

  /**
   * Changes are numbered in the order they were begun. `taken` are the rollbacks a callback has taken out of
   * the mutex-protected fields but not run yet, `ran` those that have run, in order.
   */
  datatype Sys = Sys(commit: Commit, timers: seq<Timer>, deadlines: seq<Time>, fates: seq<Fate>, taken: set<nat>,
                     ran: seq<nat>, settings: Settings, clock: Time)

  const START: Sys := Sys(INITIAL, [], [], [], {}, [], Original, 0)

  datatype Step =
    | BeginChange(now: Time)
    | ConfirmChange(now: Time)
    | Fire(k: nat, now: Time)
    | RunCallback(k: nat, now: Time)                   // the locked part
    | RunRollback(c: nat, now: Time)                   // the closure, after the mutex is released

  function StopTimer(timers: seq<Timer>, t: Option<nat>): seq<Timer> {
    if t.Some? && t.value < |timers| && timers[t.value] == Armed then timers[t.value := Stopped] else timers
  }

  /** The change that is pending, if any, meets this fate. */
  function Settle(s: Sys, fate: Fate): seq<Fate> {
    if s.commit.pending && s.commit.rollback.Some? && s.commit.rollback.value < |s.fates|
    then s.fates[s.commit.rollback.value := fate] else s.fates
  }

  ghost predicate Next(s: Sys, step: Step, s': Sys) {
    && s.clock <= step.now == s'.clock
    && match step
       case BeginChange(now) =>
         var c := |s.fates|;
         && s'.commit == Begun(s.commit, c, now)
         && s'.timers == StopTimer(s.timers, s.commit.timer) + [Armed]
         && s'.deadlines == s.deadlines + [now + CONFIRM_WINDOW]
         && s'.fates == Settle(s, Superseded) + [Pending]
         && s'.taken == s.taken && s'.ran == s.ran && s'.settings == Of(c)
       case ConfirmChange(now) =>
         && s'.commit == Confirmed(s.commit)
         && s'.timers == (if s.commit.pending then StopTimer(s.timers, s.commit.timer) else s.timers)
         && s'.fates == Settle(s, ConfirmedByOperator)
         && s'.taken == s.taken && s'.ran == s.ran && s'.deadlines == s.deadlines && s'.settings == s.settings
       case Fire(k, now) =>
         && k < |s.timers| == |s.deadlines| && s.timers[k] == Armed && s.deadlines[k] <= now
         && s' == s.(timers := s.timers[k := Waiting], clock := now)
       case RunCallback(k, now) =>
         && k < |s.timers| && s.timers[k] == Waiting
         && var (c, run) := Called(s.commit);
            s' == Sys(c, s.timers[k := Done], s.deadlines, Settle(s, RolledBack(k, now)),
                      if run.Some? then s.taken + {run.value} else s.taken, s.ran, s.settings, now)
       case RunRollback(c, now) =>
         && c in s.taken
         && s' == s.(taken := s.taken - {c}, ran := s.ran + [c], settings := Before(c), clock := now)
  }

  // ----- the invariant -----

  ghost predicate Inv(s: Sys) {
    var n := |s.fates|;
    && |s.timers| == |s.deadlines| == n
    // only the newest change can be pending, and the stored closure is its own
    && (forall c :: 0 <= c < n - 1 ==> s.fates[c] != Pending)
    && (s.commit.pending ==> n > 0 && s.commit.rollback == Some(n - 1))
    && (n > 0 ==> (s.commit.pending <==> s.fates[n - 1] == Pending) && s.commit.timer == Some(n - 1))
    && (n > 0 ==> s.fates[n - 1] != Superseded)
    && (n > 0 && s.commit.pending ==> s.commit.deadline == s.deadlines[n - 1])
    // only the newest timer can still be counting down
    && (forall c :: 0 <= c < n - 1 ==> s.timers[c] != Armed)
    // a change was rolled back exactly if its rollback was taken, and then it runs once
    && (forall c :: 0 <= c < n ==> (s.fates[c].RolledBack? <==> c in s.taken || c in s.ran))
    && (forall c :: c in s.taken ==> c < n && c !in s.ran)
    && (forall i :: 0 <= i < |s.ran| ==> s.ran[i] < n)
    && (forall i, j :: 0 <= i < j < |s.ran| ==> s.ran[i] != s.ran[j])
  }

  lemma BeginKeepsInv(s: Sys, step: Step, s': Sys)
    requires Inv(s) && Next(s, step, s') && step.BeginChange?
    ensures Inv(s')
  {
  }

  lemma CallbackKeepsInv(s: Sys, step: Step, s': Sys)
    requires Inv(s) && Next(s, step, s') && step.RunCallback?
    ensures Inv(s')
  {
  }

  lemma RollbackKeepsInv(s: Sys, step: Step, s': Sys)
    requires Inv(s) && Next(s, step, s') && step.RunRollback?
    ensures Inv(s')
  {
    assert forall c :: c in s'.ran <==> c in s.ran || c == step.c;
  }

  lemma StepKeepsInv(s: Sys, step: Step, s': Sys)
    requires Inv(s) && Next(s, step, s')
    ensures Inv(s')
  {
    match step {
      case BeginChange(_) => BeginKeepsInv(s, step, s');
      case RunCallback(_, _) => CallbackKeepsInv(s, step, s');
      case RunRollback(_, _) => RollbackKeepsInv(s, step, s');
      case ConfirmChange(_) =>
      case Fire(_, _) =>
    }
  }

  ghost predicate StepAt(states: seq<Sys>, steps: seq<Step>, i: nat)
    requires i < |steps| < |states|
  {
    Next(states[i], steps[i], states[i + 1])
  }

  ghost predicate Run(states: seq<Sys>, steps: seq<Step>) {
    && |states| == |steps| + 1 && states[0] == START
    && forall i :: 0 <= i < |steps| ==> StepAt(states, steps, i)
  }

  lemma {:induction false} RunKeepsInv(states: seq<Sys>, steps: seq<Step>, n: nat)
    requires Run(states, steps) && n <= |steps|
    ensures Inv(states[n])
  {
    if n > 0 {
      RunKeepsInv(states, steps, n - 1);
      assert StepAt(states, steps, n - 1);
      StepKeepsInv(states[n - 1], steps[n - 1], states[n]);
    }
  }

  // ----- outcomes are exclusive and final -----

  lemma FateIsKept(s: Sys, step: Step, s': Sys, c: nat)
    requires Inv(s) && Next(s, step, s') && c < |s.fates|
    ensures |s.fates| <= |s'.fates|
    ensures s.fates[c] != Pending ==> s'.fates[c] == s.fates[c]
  {
  }

  lemma FateIsKeptAt(states: seq<Sys>, steps: seq<Step>, n: nat, c: nat)
    requires Run(states, steps) && n < |steps| && c < |states[n].fates| && states[n].fates[c] != Pending
    ensures c < |states[n + 1].fates| && states[n + 1].fates[c] == states[n].fates[c]
  {
    RunKeepsInv(states, steps, n);
    assert StepAt(states, steps, n);
    FateIsKept(states[n], steps[n], states[n + 1], c);
  }

  /**
   * Over every interleaving, late callbacks included: once a change is confirmed, rolled back or
   * superseded it stays that, and it is nothing else.
   */
  lemma {:induction false} FateIsFinal(states: seq<Sys>, steps: seq<Step>, c: nat, m: nat, n: nat)
    requires Run(states, steps) && m <= n <= |steps|
    requires c < |states[m].fates| && states[m].fates[c] != Pending
    ensures c < |states[n].fates| && states[n].fates[c] == states[m].fates[c]
  {
    if m < n {
      FateIsFinal(states, steps, c, m, n - 1);
      FateIsKeptAt(states, steps, n - 1, c);
    }
  }

  /** Each rollback is taken or has run at most once, and never for a change that was confirmed or superseded. */
  lemma RollbackRunsAtMostOnce(states: seq<Sys>, steps: seq<Step>, n: nat)
    requires Run(states, steps) && n <= |steps|
    ensures forall i, j :: 0 <= i < j < |states[n].ran| ==> states[n].ran[i] != states[n].ran[j]
    ensures forall c :: 0 <= c < |states[n].fates| ==>
              (c in states[n].ran || c in states[n].taken <==> states[n].fates[c].RolledBack?)
    ensures forall c :: c in states[n].taken ==> c !in states[n].ran
    ensures forall c :: c in states[n].ran || c in states[n].taken ==> c < |states[n].fates|
  {
    RunKeepsInv(states, steps, n);
  }

  /** A change still pending when its own callback gets the mutex is rolled back: its rollback is taken then. */
  lemma UnconfirmedIsRolledBack(states: seq<Sys>, steps: seq<Step>, n: nat, c: nat)
    requires Run(states, steps) && n < |steps| && steps[n].RunCallback? && steps[n].k == c
    requires c < |states[n].fates| && states[n].fates[c] == Pending
    ensures c < |states[n + 1].fates|
    ensures states[n + 1].fates[c] == RolledBack(c, steps[n].now) && states[n + 1].taken == states[n].taken + {c}
  {
    RunKeepsInv(states, steps, n);
    assert StepAt(states, steps, n);
  }

  // ----- when can a change be rolled back too early? -----

  /** No callback that fired earlier is still waiting for the mutex. */
  predicate NoneWaiting(timers: seq<Timer>, upto: nat) {
    forall k :: 0 <= k < upto && k < |timers| ==> timers[k] == Done || timers[k] == Stopped
  }

  /** `c` is pending with only its own timer alive, or was rolled back by that timer after its window. */
  ghost predicate OnTime(s: Sys, c: nat, deadline: Time) {
    && c < |s.fates| == |s.timers| == |s.deadlines| && s.deadlines[c] == deadline
    && NoneWaiting(s.timers, c)
    && (s.timers[c] == Waiting ==> s.deadlines[c] <= s.clock)
    && (s.fates[c].RolledBack? ==> s.fates[c].via == c && s.deadlines[c] <= s.fates[c].at)
  }

  lemma StepKeepsOnTime(s: Sys, step: Step, s': Sys, c: nat, deadline: Time)
    requires Inv(s) && Next(s, step, s') && OnTime(s, c, deadline)
    ensures OnTime(s', c, deadline)
  {
    if step.RunCallback? && s.fates[c] == Pending {
      assert c == |s.fates| - 1;
      assert step.k == c;
    }
  }

  /**
   * If no earlier callback is waiting when a change is begun, that change is rolled back by its own
   * timer or not at all, and never before its confirmation window is over.
   */
  lemma {:induction false} RollbackWaitsForItsWindow(states: seq<Sys>, steps: seq<Step>, b: nat, n: nat)
    requires Run(states, steps) && b < n <= |steps| && steps[b].BeginChange?
    requires forall k :: 0 <= k < |states[b].timers| ==> states[b].timers[k] != Waiting
    ensures OnTime(states[n], |states[b].fates|, steps[b].now + 120 * SECOND)
    ensures var c := |states[b].fates|;
            var fate := states[n].fates[c];
            fate.RolledBack? ==> fate.via == c && steps[b].now + 120 * SECOND <= fate.at
  {
    RunKeepsInv(states, steps, n - 1);
    assert StepAt(states, steps, n - 1);
    if n > b + 1 {
      RollbackWaitsForItsWindow(states, steps, b, n - 1);
      StepKeepsOnTime(states[n - 1], steps[n - 1], states[n], |states[b].fates|, steps[b].now + CONFIRM_WINDOW);
    }
  }

  /**
   * The condition is exact: if an earlier callback is waiting when a change is begun, it may get the
   * mutex next and roll the new change back long before its window is over.
   */
  lemma WaitingCallbackMayRollBackEarly(s: Sys, k: nat, now: Time) returns (s1: Sys, s2: Sys)
    requires Inv(s) && k < |s.timers| && s.timers[k] == Waiting && s.clock <= now
    ensures Next(s, BeginChange(now), s1) && Next(s1, RunCallback(k, now), s2)
    ensures s2.fates[|s.fates|] == RolledBack(k, now) && now < s2.deadlines[|s.fates|]
  {
    var c := |s.fates|;
    s1 := Sys(Begun(s.commit, c, now), StopTimer(s.timers, s.commit.timer) + [Armed],
              s.deadlines + [now + CONFIRM_WINDOW], Settle(s, Superseded) + [Pending], s.taken, s.ran, Of(c), now);
    s2 := Sys(s1.commit.(pending := false), s1.timers[k := Done], s1.deadlines,
              s1.fates[c := RolledBack(k, now)], s.taken + {c}, s.ran, Of(c), now);
  }

  /** Such a state is reached: the first change's timer fires, and a second change begins before its callback runs. */
  lemma EarlyRollbackIsReachable() returns (states: seq<Sys>, steps: seq<Step>)
    ensures Run(states, steps) && |steps| == 4
    ensures states[2].timers == [Waiting] && steps[2] == BeginChange(CONFIRM_WINDOW)
    ensures states[4].fates == [Superseded, RolledBack(0, CONFIRM_WINDOW)] && states[4].taken == {1}
    ensures states[4].deadlines == [CONFIRM_WINDOW, 2 * CONFIRM_WINDOW]
  {
    var w := CONFIRM_WINDOW;
    states, steps := FirstChangeFires();
    var fired := states[2];
    var again := Sys(Begun(fired.commit, 1, w), [Waiting, Armed], [w, 2 * w], [Superseded, Pending], {}, [], Of(1), w);
    var rolled := Sys(again.commit.(pending := false), [Done, Armed], [w, 2 * w],
                      [Superseded, RolledBack(0, w)], {1}, [], Of(1), w);
    assert Next(fired, BeginChange(w), again);
    assert Next(again, RunCallback(0, w), rolled);
    RunContinues(states, steps, BeginChange(w), again);
    states, steps := states + [again], steps + [BeginChange(w)];
    RunContinues(states, steps, RunCallback(0, w), rolled);
    states, steps := states + [rolled], steps + [RunCallback(0, w)];
  }

  lemma FirstChangeFires() returns (states: seq<Sys>, steps: seq<Step>)
    ensures Run(states, steps) && |steps| == 2
    ensures states[2] ==
            Sys(Begun(INITIAL, 0, 0), [Waiting], [CONFIRM_WINDOW], [Pending], {}, [], Of(0), CONFIRM_WINDOW)
  {
    var w := CONFIRM_WINDOW;
    var begun := Sys(Begun(INITIAL, 0, 0), [Armed], [w], [Pending], {}, [], Of(0), 0);
    states, steps := [START, begun, begun.(timers := [Waiting], clock := w)], [BeginChange(0), Fire(0, w)];
    assert StepAt(states, steps, 0) && StepAt(states, steps, 1);
  }

  // ----- when do a confirmed change's settings survive? -----

  /**
   * `c` is the newest change and its settings are in force, unless its own rollback was taken; no older
   * rollback is still to run.
   */
  ghost predicate InForce(s: Sys, c: nat) {
    && |s.fates| == c + 1
    && s.taken <= {c}
    && (!s.fates[c].RolledBack? ==> s.settings == Of(c) && s.taken == {})
  }

  lemma StepKeepsInForce(s: Sys, step: Step, s': Sys, c: nat)
    requires Inv(s) && Next(s, step, s') && InForce(s, c) && !step.BeginChange?
    ensures InForce(s', c)
  {
  }

  /** No change is begun in the steps strictly after b. */
  predicate NewestSince(steps: seq<Step>, b: nat, n: nat) {
    n <= |steps| && forall m :: b < m < n ==> !steps[m].BeginChange?
  }

  /**
   * If no older rollback was taken and still to run when a change was begun, then a confirmation - and, while
   * it is the newest change, anything else but its own rollback - leaves its settings in force.
   */
  lemma {:induction false} ConfirmedSettingsSurvive(states: seq<Sys>, steps: seq<Step>, b: nat, n: nat)
    requires Run(states, steps) && b < n && NewestSince(steps, b, n)
    requires steps[b].BeginChange? && states[b].taken == {}
    ensures InForce(states[n], |states[b].fates|)
    ensures var c := |states[b].fates|;
            states[n].fates[c].ConfirmedByOperator? ==> states[n].settings == Of(c) && states[n].taken == {}
  {
    RunKeepsInv(states, steps, n - 1);
    assert StepAt(states, steps, n - 1);
    if n > b + 1 {
      ConfirmedSettingsSurvive(states, steps, b, n - 1);
      StepKeepsInForce(states[n - 1], steps[n - 1], states[n], |states[b].fates|);
    }
  }

  /**
   * The condition is exact: if an older rollback is still to run when a change is begun, the change can be
   * confirmed and have its settings overwritten all the same.
   */
  lemma TakenRollbackMayOverwriteConfirmed(s: Sys, late: nat, now: Time) returns (s1: Sys, s2: Sys, s3: Sys)
    requires Inv(s) && late in s.taken && s.clock <= now
    ensures Next(s, BeginChange(now), s1) && Next(s1, ConfirmChange(now), s2) && Next(s2, RunRollback(late, now), s3)
    ensures s3.fates[|s.fates|].ConfirmedByOperator? && s3.settings == Before(late) && late < |s.fates|
  {
    var c := |s.fates|;
    s1 := Sys(Begun(s.commit, c, now), StopTimer(s.timers, s.commit.timer) + [Armed],
              s.deadlines + [now + CONFIRM_WINDOW], Settle(s, Superseded) + [Pending], s.taken, s.ran, Of(c), now);
    s2 := Sys(Confirmed(s1.commit), StopTimer(s1.timers, s1.commit.timer), s1.deadlines,
              Settle(s1, ConfirmedByOperator), s.taken, s.ran, Of(c), now);
    s3 := s2.(taken := s.taken - {late}, ran := s.ran + [late], settings := Before(late));
  }

  /** Such a state is reached: the first change's callback takes the rollback and is slow to run it. */
  lemma OverwrittenConfirmationIsReachable() returns (states: seq<Sys>, steps: seq<Step>)
    ensures Run(states, steps) && |steps| == 6
    ensures states[6].fates == [RolledBack(0, CONFIRM_WINDOW), ConfirmedByOperator]
    ensures states[6].settings == Before(0)
  {
    var w := CONFIRM_WINDOW;
    states, steps := SlowCallback();
    RunKeepsInv(states, steps, 3);
    var s1, s2, s3 := TakenRollbackMayOverwriteConfirmed(states[3], 0, w);
    FateIsKept(states[3], BeginChange(w), s1, 0);
    FateIsKept(s1, ConfirmChange(w), s2, 0);
    RunContinues(states, steps, BeginChange(w), s1);
    states, steps := states + [s1], steps + [BeginChange(w)];
    RunContinues(states, steps, ConfirmChange(w), s2);
    states, steps := states + [s2], steps + [ConfirmChange(w)];
    RunContinues(states, steps, RunRollback(0, w), s3);
    states, steps := states + [s3], steps + [RunRollback(0, w)];
  }

  lemma SlowCallback() returns (states: seq<Sys>, steps: seq<Step>)
    ensures Run(states, steps) && |steps| == 3
    ensures states[3] == Sys(Begun(INITIAL, 0, 0).(pending := false), [Done], [CONFIRM_WINDOW],
                             [RolledBack(0, CONFIRM_WINDOW)], {0}, [], Of(0), CONFIRM_WINDOW)
  {
    var w := CONFIRM_WINDOW;
    states, steps := FirstChangeFires();
    var took := Sys(states[2].commit.(pending := false), [Done], [w], [RolledBack(0, w)], {0}, [], Of(0), w);
    assert Next(states[2], RunCallback(0, w), took);
    RunContinues(states, steps, RunCallback(0, w), took);
    states, steps := states + [took], steps + [RunCallback(0, w)];
  }

  lemma RunContinues(states: seq<Sys>, steps: seq<Step>, step: Step, s': Sys)
    requires Run(states, steps) && Next(states[|steps|], step, s')
    ensures Run(states + [s'], steps + [step])
  {
    var states', steps' := states + [s'], steps + [step];
    forall n | 0 <= n < |steps'| ensures StepAt(states', steps', n) {
      if n < |steps| {
        assert StepAt(states, steps, n);
      }
    }
  }
}
