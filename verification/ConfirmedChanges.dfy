/**
 * The commit-confirm protocol (portal/tls.go) and the settings it protects (portal/listeners.go,
 * portal/admin_settings.go) as one system: beginning a change is an armed save of the TLS section, and
 * running a rollback is the closure that save armed. Any number of changes may supersede, confirm and roll
 * back each other, late callbacks included.
 */
module ConfirmedChanges {
  import opened Common
  import opened Settings
  import opened Listeners
  import opened TlsRollback
  import C = ListenerCommit

  // ----- what a save and a rollback do to the portal, as far as the protocol cares -----

  /**
   * `saves(a, a')`: an armed save may lead from a to a'. `undoes(a, b, a')`: the rollback that a save made in
   * state b armed may lead from a to a'. `alike` is agreement on what the operator sees.
   */
  datatype World<!A> = World(sane: A -> bool, saves: (A, A) -> bool, undoes: (A, A, A) -> bool, alike: (A, A) -> bool)

  ghost predicate Lawful<A(!new)>(w: World<A>) {
    && (forall a, a' :: w.sane(a) && w.saves(a, a') ==> w.sane(a'))
    && (forall a, b, a' :: w.sane(a) && w.sane(b) && w.undoes(a, b, a') ==> w.sane(a') && w.alike(a', b))
  }

  /** The portal with this public URL, running what its table says, with its last apply successful. */
  ghost predicate Sane(env: Env, url: string, a: App) {
    Settled(env, a) && PublicURL(env, a.rows) == url
  }

  /** A save of the TLS section that is risky and could be applied. */
  ghost predicate Saves(env: Env, a: App, a': App) {
    exists submitted: Values, nonces: string -> string, bindOk: bool ::
      && AllLoadable(env, a.rows)
      && SaveTls(env, a, submitted, nonces, bindOk) == (a', Some(Restore(Snapshot(env, a.rows, TLS))))
  }

  /** The closure armed in state b runs in state a, and its bind works. */
  ghost predicate Undoes(env: Env, a: App, b: App, a': App) {
    exists nonces: string -> string, bindOk: bool ::
      && AllLoadable(env, b.rows)
      && RolledBack(env, a, Restore(Snapshot(env, b.rows, TLS)), nonces, bindOk) == (a', true)
  }

  ghost function TlsWorld(env: Env, url: string): World<App> {
    World(a => Sane(env, url, a), (a, a') => Saves(env, a, a'), (a, b, a') => Undoes(env, a, b, a'),
          (a: App, b: App) => a.conf == b.conf && a.held == b.held)
  }

  lemma SaveIsSane(env: Env, url: string, a: App, a': App)
    requires Registered(env) && Sane(env, url, a) && Saves(env, a, a')
    ensures Sane(env, url, a')
  {
    var submitted: Values, nonces: string -> string, bindOk: bool :|
      && AllLoadable(env, a.rows)
      && SaveTls(env, a, submitted, nonces, bindOk) == (a', Some(Restore(Snapshot(env, a.rows, TLS))));
    var stored := Snapshot(env, a.rows, TLS);
    TlsSaveIsPlain(env, nonces, a.rows, Merged(env.reg, TLS, stored, Allowed(env.reg, TLS, submitted)));
    SuccessForgetsHistory(a.held, a'.conf, bindOk);
  }

  lemma UndoIsSane(env: Env, url: string, a: App, b: App, a': App)
    requires Registered(env) && Sane(env, url, a) && Sane(env, url, b) && Undoes(env, a, b, a')
    ensures Sane(env, url, a') && a'.conf == b.conf && a'.held == b.held
  {
    var nonces: string -> string, bindOk: bool :|
      AllLoadable(env, b.rows) && RolledBack(env, a, Restore(Snapshot(env, b.rows, TLS)), nonces, bindOk) == (a', true);
    TlsSaveIsPlain(env, nonces, a.rows, Restore(Snapshot(env, b.rows, TLS)));
    SuccessForgetsHistory(a.held, a'.conf, bindOk);
    RollbackRestoresExactlyWhen(env, b, a, nonces, bindOk, a');
  }

  /** The TLS section obeys: armed saves stay settled, and a rollback leads back to where its save was made. */
  lemma TlsWorldIsLawful(env: Env, url: string)
    requires Registered(env)
    ensures Lawful(TlsWorld(env, url))
  {
    var w := TlsWorld(env, url);
    forall a, a' | w.sane(a) && w.saves(a, a') ensures w.sane(a') {
      SaveIsSane(env, url, a, a');
    }
    forall a, b, a' | w.sane(a) && w.sane(b) && w.undoes(a, b, a') ensures w.sane(a') && w.alike(a', b) {
      UndoIsSane(env, url, a, b, a');
    }
  }

  // ----- the protocol and the portal together -----

  /** For each change, the portal just before its save and just after. */
  datatype Sys<!A> = Sys(commit: C.Sys, app: A, before: seq<A>, made: seq<A>)

  ghost predicate Next<A>(w: World<A>, s: Sys<A>, step: C.Step, s': Sys<A>) {
    && C.Next(s.commit, step, s'.commit)
    && match step
       case BeginChange(_) =>
         && w.saves(s.app, s'.app)
         && s'.before == s.before + [s.app] && s'.made == s.made + [s'.app]
       case RunRollback(c, _) =>
         && c < |s.before| && w.undoes(s.app, s.before[c], s'.app)
         && s'.before == s.before && s'.made == s.made
       case _ => s'.app == s.app && s'.before == s.before && s'.made == s.made
  }

  /** What the protocol says about whose settings are in force is what the portal runs. */
  ghost predicate Agrees<A>(w: World<A>, s: Sys<A>) {
    match s.commit.settings
    case Original => s.made == []
    case Of(c) => c == |s.made| - 1 && s.app == s.made[c] && c !in s.commit.ran
    case Before(c) => c < |s.before| && w.alike(s.app, s.before[c])
  }

  ghost predicate Inv<A>(w: World<A>, s: Sys<A>) {
    && C.Inv(s.commit)
    && |s.before| == |s.made| == |s.commit.fates|
    && w.sane(s.app) && (forall c :: 0 <= c < |s.before| ==> w.sane(s.before[c]))
    && Agrees(w, s)
  }

  lemma BeginKeepsInv<A(!new)>(w: World<A>, s: Sys<A>, step: C.Step, s': Sys<A>)
    requires Lawful(w) && Inv(w, s) && Next(w, s, step, s') && C.Inv(s'.commit) && step.BeginChange?
    ensures Inv(w, s')
  {
    assert forall i :: 0 <= i < |s'.commit.ran| ==> s'.commit.ran[i] < |s.commit.fates|;
  }

  lemma OtherStepKeepsInv<A(!new)>(w: World<A>, s: Sys<A>, step: C.Step, s': Sys<A>)
    requires Lawful(w) && Inv(w, s) && Next(w, s, step, s') && C.Inv(s'.commit) && !step.BeginChange?
    ensures Inv(w, s')
  {
  }

  lemma StepKeepsInv<A(!new)>(w: World<A>, s: Sys<A>, step: C.Step, s': Sys<A>)
    requires Lawful(w) && Inv(w, s) && Next(w, s, step, s')
    ensures Inv(w, s')
  {
    C.StepKeepsInv(s.commit, step, s'.commit);
    if step.BeginChange? {
      BeginKeepsInv(w, s, step, s');
    } else {
      OtherStepKeepsInv(w, s, step, s');
    }
  }

  ghost predicate StepAt<A>(w: World<A>, states: seq<Sys<A>>, steps: seq<C.Step>, n: nat)
    requires n < |steps| < |states|
  {
    Next(w, states[n], steps[n], states[n + 1])
  }

  /** A run from a sane portal with nothing pending. */
  ghost predicate Run<A>(w: World<A>, states: seq<Sys<A>>, steps: seq<C.Step>) {
    && |states| == |steps| + 1
    && states[0] == Sys(C.START, states[0].app, [], []) && w.sane(states[0].app)
    && forall n :: 0 <= n < |steps| ==> StepAt(w, states, steps, n)
  }

  lemma {:induction false} RunKeepsInv<A(!new)>(w: World<A>, states: seq<Sys<A>>, steps: seq<C.Step>, n: nat)
    requires Lawful(w) && Run(w, states, steps) && n <= |steps|
    ensures Inv(w, states[n])
  {
    if n > 0 {
      RunKeepsInv(w, states, steps, n - 1);
      assert StepAt(w, states, steps, n - 1);
      StepKeepsInv(w, states[n - 1], steps[n - 1], states[n]);
    }
  }

  /** Change c was begun from portal state a. */
  ghost predicate BegunFrom<A>(s: Sys<A>, c: nat, a: A) {
    c < |s.before| && s.before[c] == a
  }

  lemma {:induction false} BeforeIsKept<A>(w: World<A>, states: seq<Sys<A>>, steps: seq<C.Step>, c: nat, a: A,
                                           m: nat, n: nat)
    requires Run(w, states, steps) && m <= n <= |steps| && BegunFrom(states[m], c, a)
    ensures BegunFrom(states[n], c, a)
  {
    if m < n {
      BeforeIsKept(w, states, steps, c, a, m, n - 1);
      assert StepAt(w, states, steps, n - 1);
    }
  }

  lemma {:induction false} FateStays<A(!new)>(w: World<A>, states: seq<Sys<A>>, steps: seq<C.Step>, d: nat,
                                               m: nat, n: nat)
    requires Lawful(w) && Run(w, states, steps) && m <= n <= |steps|
    requires d < |states[m].commit.fates| && states[m].commit.fates[d] != C.Pending
    ensures d < |states[n].commit.fates| && states[n].commit.fates[d] == states[m].commit.fates[d]
  {
    if m < n {
      FateStays(w, states, steps, d, m, n - 1);
      RunKeepsInv(w, states, steps, n - 1);
      assert StepAt(w, states, steps, n - 1);
      C.FateIsKept(states[n - 1].commit, steps[n - 1], states[n].commit, d);
    }
  }

  // ----- what a rollback ends at -----

  /** Step b begins a change, and step n runs its rollback. */
  predicate RollsBack<A>(states: seq<Sys<A>>, steps: seq<C.Step>, b: nat, n: nat) {
    && b < n < |steps| < |states|
    && steps[b].BeginChange? && steps[n].RunRollback? && steps[n].c == |states[b].commit.fates|
  }

  /**
   * Whatever was saved, superseded, confirmed or rolled back in between: when the rollback of a change runs,
   * the portal is as it was just before that change.
   */
  lemma RollbackRestoresTheOneBefore<A(!new)>(w: World<A>, states: seq<Sys<A>>, steps: seq<C.Step>, b: nat, n: nat)
    requires Lawful(w) && Run(w, states, steps) && RollsBack(states, steps, b, n)
    ensures w.alike(states[n + 1].app, states[b].app)
  {
    var c := steps[n].c;
    RunKeepsInv(w, states, steps, b);
    RunKeepsInv(w, states, steps, n);
    assert StepAt(w, states, steps, b) && StepAt(w, states, steps, n);
    BeforeIsKept(w, states, steps, c, states[b].app, b + 1, n);
  }

  /** The settings of the change begun last, d, are in force, and no rollback is still to run. */
  ghost predicate Runs<A>(s: Sys<A>, d: nat) {
    s.commit.settings == C.Of(d) && s.commit.taken == {}
  }

  /** Beginning the next change settles what d will have been: superseded if it was pending, confirmed if not. */
  lemma NextChangeSettles<A>(w: World<A>, s: Sys<A>, step: C.Step, s': Sys<A>, d: nat)
    requires Inv(w, s) && Next(w, s, step, s') && step.BeginChange? && Runs(s, d)
    ensures d < |s.made| && s.app == s.made[d] && d < |s'.commit.fates|
    ensures s'.commit.fates[d] == if s.commit.commit.pending then C.Superseded else C.ConfirmedByOperator
  {
  }

  /**
   * A chain of unconfirmed changes ends at what the change before the last had made. That was confirmed if
   * and only if nothing was pending when the last one began; if something was, nobody ever confirmed it.
   */
  lemma RollbackEndsAtAConfirmedChangeExactlyWhen<A(!new)>(w: World<A>, states: seq<Sys<A>>, steps: seq<C.Step>,
                                                             b: nat, n: nat, d: nat)
    requires Lawful(w) && Run(w, states, steps) && RollsBack(states, steps, b, n) && Runs(states[b], d)
    ensures d < |states[b].made| && w.alike(states[n + 1].app, states[b].made[d])
    ensures d < |states[n + 1].commit.fates|
    ensures states[n + 1].commit.fates[d] == C.ConfirmedByOperator <==> !states[b].commit.commit.pending
  {
    RollbackRestoresTheOneBefore(w, states, steps, b, n);
    RunKeepsInv(w, states, steps, b);
    assert StepAt(w, states, steps, b);
    NextChangeSettles(w, states[b], steps[b], states[b + 1], d);
    FateStays(w, states, steps, d, b + 1, n + 1);
  }

  /** For the TLS section: configuration, listener and redirect are those from just before the change. */
  lemma TlsRollbackRestoresTheOneBefore(env: Env, url: string, states: seq<Sys<App>>, steps: seq<C.Step>,
                                        b: nat, n: nat)
    requires Registered(env) && Run(TlsWorld(env, url), states, steps) && RollsBack(states, steps, b, n)
    ensures states[n + 1].app.conf == states[b].app.conf && states[n + 1].app.held == states[b].app.held
  {
    TlsWorldIsLawful(env, url);
    RollbackRestoresTheOneBefore(TlsWorld(env, url), states, steps, b, n);
  }
}
