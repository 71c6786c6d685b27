/**
 * A process and its own bans and unbans: they take effect there at once, unless an operation of the same
 * process that began earlier is still in flight.
 */
module IpBanOwner {
  import opened Common
  import opened IpBans
  import opened IpBanStaleness

  // ----- a process's own bans -----

  /** Process i and the table both hold `ip` until at least `until`. */
  ghost predicate Enforced(s: Sys, i: nat, ip: string, until: Time) {
    && s.versions != [] && ip in Rows(s) && until <= Rows(s)[ip]
    && i in s.views && ip in s.views[i].cache && until <= s.views[i].cache[ip]
  }

  predicate Lifts(step: Step, ip: string) {
    step.DeleteAll? || (step.Delete? && step.ip == ip)
  }

  /**
   * Finishing p makes process i forget the ban: a reload that selected before the ban was in the table
   * (or whose cap left it out), an unban from before, or the removal of an older, expired entry.
   */
  predicate Threatens(p: Pending, i: nat, ip: string, until: Time) {
    && p.i == i
    && match p
       case Load(_, _, _, rows, _) => !(ip in rows && until <= rows[ip])
       case Put(_, _, _, _, _) => false
       case Drop(_, _, _, dropped) => dropped == ip
       case Forget(_, _, forgotten, _) => forgotten == ip
  }

  lemma RowStays(s: Sys, step: Step, s': Sys, ip: string, until: Time)
    requires Advances(s, step, s') && ip in Rows(s) && until <= Rows(s)[ip] && !Lifts(step, ip) && step.now < until
    ensures ip in Rows(s') && until <= Rows(s')[ip]
  {
  }

  /** Short of lifting it, a step makes its issuer lose a ban exactly if it finishes such an operation. */
  lemma OwnBanIsLostExactlyWhen(lag: nat, s: Sys, step: Step, s': Sys, i: nat, ip: string, until: Time)
    requires Next(lag, s, step, s') && Enforced(s, i, ip, until) && !Lifts(step, ip) && step.now < until
    ensures !Enforced(s', i, ip, until) <==> step.Finish? && Threatens(s.pending[step.o], i, ip, until)
  {
    RowStays(s, step, s', ip, until);
  }

  /** Enforced, and nothing in flight threatens it. */
  ghost predicate Shielded(s: Sys, i: nat, ip: string, until: Time) {
    Enforced(s, i, ip, until) && forall o :: o in s.pending ==> !Threatens(s.pending[o], i, ip, until)
  }

  /** The step is over before the ban is, does not lift it, and a reload it starts sees every active row. */
  ghost predicate Spares(s: Sys, step: Step, ip: string, until: Time) {
    && !Lifts(step, ip) && step.now < until
    && (step.Select? && s.versions != [] ==> |Active(Rows(s), step.now)| <= MAX_CACHED)
  }

  lemma OpenedIsNoThreat(lag: nat, s: Sys, step: Step, s': Sys, i: nat, ip: string, until: Time)
    requires Next(lag, s, step, s') && Shielded(s, i, ip, until) && Spares(s, step, ip, until)
    requires !step.Sweep? && !step.Finish? && Begins(s, step, s')
    requires step.Ask? ==> i in s.views && (step.i == i ==> Lapsed(s.views[i], step.ip, step.now))
    ensures !Threatens(s'.pending[step.o], i, ip, until)
  {
    if step.Select? {
      SelectSeesRow(Rows(s), step.now, s'.pending[step.o].rows, ip, until);
    }
  }

  lemma SelectSeesRow(table: Bans, now: Time, rows: Bans, ip: string, until: Time)
    requires Loads(table, now, rows) && |Active(table, now)| <= MAX_CACHED
    requires ip in table && now < until <= table[ip]
    ensures ip in rows && until <= rows[ip]
  {
    assert ip in Active(table, now);
  }

  lemma StepKeepsShielded(lag: nat, s: Sys, step: Step, s': Sys, i: nat, ip: string, until: Time)
    requires Next(lag, s, step, s') && Shielded(s, i, ip, until) && Spares(s, step, ip, until)
    ensures Shielded(s', i, ip, until)
  {
    OwnBanIsLostExactlyWhen(lag, s, step, s', i, ip, until);
    forall o | o in s'.pending ensures !Threatens(s'.pending[o], i, ip, until) {
      if o in s.pending {
        assert s'.pending[o] == s.pending[o];
      } else {
        OpenedIsNoThreat(lag, s, step, s', i, ip, until);
      }
    }
  }

  lemma {:induction false} ShieldStays(lag: nat, states: seq<Sys>, steps: seq<Step>, from: nat, n: nat,
                                       i: nat, ip: string, until: Time)
    requires Run(lag, states, steps) && from <= n <= |steps| && Shielded(states[from], i, ip, until)
    requires forall m :: from <= m < n ==> Spares(states[m], steps[m], ip, until)
    ensures Shielded(states[n], i, ip, until)
  {
    if from < n {
      ShieldStays(lag, states, steps, from, n - 1, i, ip, until);
      assert StepAt(lag, states, steps, n - 1);
      StepKeepsShielded(lag, states[n - 1], steps[n - 1], states[n], i, ip, until);
    }
  }

  /** The step writes process i's ban into its cache, while the row it wrote to the table is still there. */
  ghost predicate LandsBan(s: Sys, step: Step, i: nat, ip: string, until: Time) {
    && step.Finish? && step.o in s.pending && s.pending[step.o].Put?
    && s.pending[step.o].i == i && s.pending[step.o].ip == ip && s.pending[step.o].until == until
    && s.versions != [] && ip in Rows(s) && until <= Rows(s)[ip]
  }

  lemma LandedBanIsShielded(lag: nat, s: Sys, step: Step, s': Sys, i: nat, ip: string, until: Time)
    requires Next(lag, s, step, s') && LandsBan(s, step, i, ip, until)
    requires forall o :: o in s.pending ==> !Threatens(s.pending[o], i, ip, until)
    ensures Shielded(s', i, ip, until)
  {
  }

  /**
   * The process that issues a ban enforces it from the moment the call returns and, whatever the other
   * processes do short of lifting it, at every instant before it expires, across its own reloads too - if
   * no reload, unban or removal that threatens it was in flight in that process when the ban landed.
   */
  lemma OwnBanTakesEffectAtOnce(lag: nat, states: seq<Sys>, steps: seq<Step>, from: nat, n: nat,
                                i: nat, ip: string, until: Time)
    requires Run(lag, states, steps) && from < n <= |steps| && LandsBan(states[from], steps[from], i, ip, until)
    requires forall o :: o in states[from].pending ==> !Threatens(states[from].pending[o], i, ip, until)
    requires forall m :: from < m < n ==> Spares(states[m], steps[m], ip, until)
    ensures Enforced(states[n], i, ip, until)
    ensures forall now: Time :: now <= until ==> Banned(states[n].views[i].cache, ip, now)
  {
    assert StepAt(lag, states, steps, from);
    LandedBanIsShielded(lag, states[from], steps[from], states[from + 1], i, ip, until);
    ShieldStays(lag, states, steps, from + 1, n, i, ip, until);
  }

  /**
   * The condition cannot be dropped: a reload that selects before the ban and installs after it erases
   * the ban from its issuer's fresh cache, although the row is in the table and nobody lifted it.
   */
  lemma OwnBanCanBeLost(ip: string, until: Time) returns (states: seq<Sys>, steps: seq<Step>)
    requires ip != "" && 1 < until
    ensures Run(0, states, steps) && |steps| == 6
    ensures steps[2..] == [Select(1, 0, 1), Upsert(2, 0, ip, until, 1), Finish(2, 1), Finish(1, 1)]
    ensures var t, empty := [map[], map[ip := until]], View(map[], 1, true);
            && states[5].views == map[0 := View(map[ip := until], 1, true)]
            && states[6] == Sys(t, [0, 1], map[0 := empty], map[], 1)
  {
    states, steps := ReloadingRun();
    var s4, s5, s6 := LostWhileReloading(states[3], ip, until);
    RunContinues(0, states, steps, Upsert(2, 0, ip, until, 1), s4);
    states, steps := states + [s4], steps + [Upsert(2, 0, ip, until, 1)];
    RunContinues(0, states, steps, Finish(2, 1), s5);
    states, steps := states + [s5], steps + [Finish(2, 1)];
    RunContinues(0, states, steps, Finish(1, 1), s6);
    states, steps := states + [s6], steps + [Finish(1, 1)];
  }

  /** A process has started, and a second reload has selected but not installed. */
  lemma ReloadingRun() returns (states: seq<Sys>, steps: seq<Step>)
    ensures Run(0, states, steps) && steps == [Select(0, 0, 1), Finish(0, 1), Select(1, 0, 1)]
    ensures states[3] == Sys([map[]], [0], map[0 := View(map[], 1, true)], map[1 := Load(0, 1, 0, map[], true)], 1)
  {
    var none: Bans := map[];
    var load := Load(0, 1, 0, none, true);
    var s0 := Sys([none], [0], map[], map[], 0);
    var s1 := s0.(pending := map[0 := load], clock := 1);
    var s2 := s1.(views := map[0 := View(none, 1, true)], pending := map[]);
    var s3 := s2.(pending := map[1 := load]);
    SelectsEmpty(s0, 0, s1);
    assert Next(0, s1, Finish(0, 1), s2);
    SelectsEmpty(s2, 1, s3);
    StartIsSound(0, none, 0);
    states, steps := [s0], [];
    RunContinues(0, states, steps, Select(0, 0, 1), s1);
    states, steps := states + [s1], steps + [Select(0, 0, 1)];
    RunContinues(0, states, steps, Finish(0, 1), s2);
    states, steps := states + [s2], steps + [Finish(0, 1)];
    RunContinues(0, states, steps, Select(1, 0, 1), s3);
    states, steps := states + [s3], steps + [Select(1, 0, 1)];
  }

  lemma LostWhileReloading(s3: Sys, ip: string, until: Time) returns (s4: Sys, s5: Sys, s6: Sys)
    requires ip != "" && 1 < until
    requires s3 == Sys([map[]], [0], map[0 := View(map[], 1, true)], map[1 := Load(0, 1, 0, map[], true)], 1)
    ensures Next(0, s3, Upsert(2, 0, ip, until, 1), s4)
    ensures Next(0, s4, Finish(2, 1), s5) && Next(0, s5, Finish(1, 1), s6)
    ensures s5.views == map[0 := View(map[ip := until], 1, true)]
    ensures s6 == Sys([map[], map[ip := until]], [0, 1], map[0 := View(map[], 1, true)], map[], 1)
  {
    var banned: Bans := map[ip := until];
    assert Extended(map[], ip, until) == banned;
    s4 := Sys([map[], banned], [0, 1], s3.views, s3.pending[2 := Put(0, 1, 1, ip, until)], 1);
    s5 := s4.(views := map[0 := View(banned, 1, true)], pending := s3.pending);
    s6 := s4.(views := s3.views, pending := map[]);
    assert Next(0, s3, Upsert(2, 0, ip, until, 1), s4);
    assert s4.pending - {2} == s3.pending;
    assert Next(0, s4, Finish(2, 1), s5);
    assert s5.pending - {1} == map[];
    assert Next(0, s5, Finish(1, 1), s6);
  }

  lemma SelectsEmpty(s: Sys, o: nat, s': Sys)
    requires s.versions == [map[]] && s.clock <= 1 && o !in s.pending
    requires s' == s.(pending := s.pending[o := Load(0, 1, 0, map[], true)], clock := 1)
    ensures Next(0, s, Select(o, 0, 1), s')
  {
    assert Active(map[], 1) == map[];
  }

  // ----- a process's own unbans -----

  /** Neither the table nor process i's cache has anything on `ip`. */
  ghost predicate Cleared(s: Sys, i: nat, ip: string) {
    s.versions != [] && ip !in Rows(s) && i in s.views && ip !in s.views[i].cache
  }

  /** Finishing p brings `ip` back into process i's cache: a reload or a ban begun before the unban. */
  predicate Revives(p: Pending, i: nat, ip: string) {
    p.i == i && ((p.Load? && ip in p.rows) || (p.Put? && p.ip == ip))
  }

  /** Short of a new ban, a step brings a lifted ban back exactly if it finishes such an operation. */
  lemma OwnUnbanIsUndoneExactlyWhen(lag: nat, s: Sys, step: Step, s': Sys, i: nat, ip: string)
    requires Next(lag, s, step, s') && Cleared(s, i, ip) && !(step.Upsert? && step.ip == ip)
    ensures !Cleared(s', i, ip) <==> step.Finish? && Revives(s.pending[step.o], i, ip)
  {
    RowStaysGone(s, step, s', ip);
  }

  lemma RowStaysGone(s: Sys, step: Step, s': Sys, ip: string)
    requires Advances(s, step, s') && ip !in Rows(s) && !(step.Upsert? && step.ip == ip)
    ensures s'.versions != [] && ip !in Rows(s')
  {
  }

  ghost predicate Settled(s: Sys, i: nat, ip: string) {
    Cleared(s, i, ip) && forall o :: o in s.pending ==> !Revives(s.pending[o], i, ip)
  }

  lemma StepKeepsSettled(lag: nat, s: Sys, step: Step, s': Sys, i: nat, ip: string)
    requires Next(lag, s, step, s') && Settled(s, i, ip) && !(step.Upsert? && step.ip == ip)
    ensures Settled(s', i, ip)
  {
    OwnUnbanIsUndoneExactlyWhen(lag, s, step, s', i, ip);
    forall o | o in s'.pending ensures !Revives(s'.pending[o], i, ip) {
      if o in s.pending {
        assert s'.pending[o] == s.pending[o];
      } else {
        assert Opens(s, Rows(s'), |s'.versions| - 1, step, s'.pending[o]);
      }
    }
  }

  lemma {:induction false} SettledStays(lag: nat, states: seq<Sys>, steps: seq<Step>, from: nat, n: nat,
                                        i: nat, ip: string)
    requires Run(lag, states, steps) && from <= n <= |steps| && Settled(states[from], i, ip)
    requires forall m :: from <= m < n ==> !(steps[m].Upsert? && steps[m].ip == ip)
    ensures Settled(states[n], i, ip)
  {
    if from < n {
      SettledStays(lag, states, steps, from, n - 1, i, ip);
      assert StepAt(lag, states, steps, n - 1);
      StepKeepsSettled(lag, states[n - 1], steps[n - 1], states[n], i, ip);
    }
  }

  /** The step takes the lifted ban out of process i's cache, while nobody has banned the IP again. */
  ghost predicate LandsUnban(s: Sys, step: Step, i: nat, ip: string) {
    && step.Finish? && step.o in s.pending && s.pending[step.o].i == i
    && (|| (s.pending[step.o].Drop? && s.pending[step.o].ip == ip)
        || (s.pending[step.o].Load? && s.pending[step.o].rows == map[]))
    && s.versions != [] && ip !in Rows(s)
  }

  lemma LandedUnbanIsSettled(lag: nat, s: Sys, step: Step, s': Sys, i: nat, ip: string)
    requires Next(lag, s, step, s') && LandsUnban(s, step, i, ip)
    requires forall o :: o in s.pending ==> !Revives(s.pending[o], i, ip)
    ensures Settled(s', i, ip)
  {
  }

  /**
   * The process that lifts one ban or all of them stops enforcing them as soon as the call returns, and keeps
   * not enforcing them until some process bans the IP again, if no reload or ban begun before was still in
   * flight there.
   */
  lemma OwnUnbanTakesEffectAtOnce(lag: nat, states: seq<Sys>, steps: seq<Step>, from: nat, n: nat, i: nat, ip: string)
    requires Run(lag, states, steps) && from < n <= |steps| && LandsUnban(states[from], steps[from], i, ip)
    requires forall o :: o in states[from].pending ==> !Revives(states[from].pending[o], i, ip)
    requires forall m :: from < m < n ==> !(steps[m].Upsert? && steps[m].ip == ip)
    ensures Cleared(states[n], i, ip)
    ensures forall now: Time :: !Banned(states[n].views[i].cache, ip, now)
  {
    assert StepAt(lag, states, steps, from);
    LandedUnbanIsSettled(lag, states[from], steps[from], states[from + 1], i, ip);
    SettledStays(lag, states, steps, from + 1, n, i, ip);
  }
}
