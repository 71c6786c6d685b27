/**
 * Any number of processes sharing the ip_ban table. The system below remembers every version the
 * table ever had, so that "how stale is this process's answer" can be asked precisely.
 *
 * A reload first selects and then installs, and a ban or an unban first writes the table and then the
 * cache; anything may happen in between, in the same process too. `lag` bounds how long the two halves,
 * and the two clock readings of a question, lie apart.
 */
module IpBanStaleness {
  import opened Common
  import opened IpBans

  /** A process's cache; `whole` says whether every active row fitted at the last reload. */
  datatype View = View(cache: Bans, refreshed: Time, whole: bool)

  /**
   * The second half of an operation of process i, whose first half left or read table version `base` at
   * instant `at`: a reload to install, a ban or an unban to write into the cache, an expired entry to drop
   * that was seen in a view.
   */
  datatype Pending =
    | Load(i: nat, at: Time, base: nat, rows: Bans, whole: bool)
    | Put(i: nat, at: Time, base: nat, ip: string, until: Time)
    | Drop(i: nat, at: Time, base: nat, ip: string)
    | Forget(i: nat, at: Time, ip: string, seen: View)

  /** versions[v] was the table from since[v] until since[v + 1]. */
  datatype Sys = Sys(versions: seq<Bans>, since: seq<Time>, views: map<nat, View>, pending: map<nat, Pending>,
                     clock: Time)

  function Rows(s: Sys): Bans
    requires s.versions != []
  {
    s.versions[|s.versions| - 1]
  }

  /** Finish runs the second half of operation o; Ask is an isBanned call whose cache is fresh or was just reloaded. */
  datatype Step =
    | Select(o: nat, i: nat, now: Time)
    | Upsert(o: nat, i: nat, ip: string, until: Time, now: Time)
    | Delete(o: nat, i: nat, ip: string, now: Time)
    | DeleteAll(o: nat, i: nat, now: Time)
    | Sweep(now: Time)
    | Finish(o: nat, now: Time)
    | Ask(o: nat, i: nat, ip: string, age: Time, now: Time)

  /** The table a step leaves behind. */
  function RowsAfter(rows: Bans, step: Step): Bans {
    match step
    case Upsert(_, _, ip, until, _) => Extended(rows, ip, until)
    case Delete(_, _, ip, _) => rows - {ip}
    case DeleteAll(_, _, _) => map[]
    case Sweep(now) => Active(rows, now)
    case _ => rows
  }

  predicate Writes(step: Step) {
    step.Upsert? || step.Delete? || step.DeleteAll? || step.Sweep?
  }

  /** What the first half of an operation leaves to be done; `newest` is the newest version after it. */
  ghost predicate Opens(s: Sys, rows: Bans, newest: nat, step: Step, p: Pending) {
    match step
    case Select(_, i, now) =>
      && p.Load? && p == Load(i, now, newest, p.rows, |Active(rows, now)| <= MAX_CACHED)
      && Loads(rows, now, p.rows)
    case Upsert(_, i, ip, until, now) => p == Put(i, now, newest, ip, until)
    case Delete(_, i, ip, now) => p == Drop(i, now, newest, ip)
    case DeleteAll(_, i, now) => p == Load(i, now, newest, map[], true)
    case Ask(_, i, ip, _, now) => p == Forget(i, now, ip, ViewOf(s, i))
    case _ => false
  }

  /** A process's view once operation p has finished. */
  function Landed(v: View, p: Pending, now: Time): View {
    match p
    case Load(_, _, _, rows, whole) => View(rows, now, whole)
    case Put(_, _, _, ip, until) => v.(cache := Extended(v.cache, ip, until))
    case Drop(_, _, _, ip) => v.(cache := v.cache - {ip})
    case Forget(_, _, ip, _) => v.(cache := v.cache - {ip})
  }

  function ViewOf(s: Sys, i: nat): View {
    if i in s.views then s.views[i] else View(map[], 0, false)
  }

  /** The entry a question found has expired, and will be dropped. */
  predicate Lapsed(v: View, ip: string, now: Time) {
    ip in v.cache && v.cache[ip] < now
  }

  /**
   * The last reload of the process was no more than TTL before `age`; refreshed never falls, so a check
   * stays valid.
   */
  predicate MayAnswer(lag: nat, v: View, age: Time, now: Time) {
    age <= now <= age + lag && !Stale(v.refreshed, age)
  }

  /** The clock and the table. */
  ghost predicate Advances(s: Sys, step: Step, s': Sys) {
    && s.versions != [] && s.clock <= step.now == s'.clock
    && if Writes(step) then s'.versions == s.versions + [RowsAfter(Rows(s), step)] && s'.since == s.since + [step.now]
       else s'.versions == s.versions && s'.since == s.since
  }

  ghost predicate Next(lag: nat, s: Sys, step: Step, s': Sys) {
    Advances(s, step, s') && Acts(lag, s, step, s')
  }

  /** The caches and the operations in flight. */
  ghost predicate Acts(lag: nat, s: Sys, step: Step, s': Sys)
    requires s.versions != [] && s'.versions != []
  {
    match step
    case Sweep(_) => s'.views == s.views && s'.pending == s.pending
    case Finish(o, now) =>
      && o in s.pending && now <= s.pending[o].at + lag
      && var p := s.pending[o];
         && (p.Load? || p.i in s.views)
         && s'.views == s.views[p.i := Landed(ViewOf(s, p.i), p, now)]
         && s'.pending == s.pending - {o}
    case Ask(o, i, ip, age, now) =>
      && i in s.views && MayAnswer(lag, s.views[i], age, now) && s'.views == s.views
      && if Lapsed(s.views[i], ip, now) then Begins(s, step, s') else s'.pending == s.pending
    case Upsert(_, _, ip, _, _) => ip != "" && s'.views == s.views && Begins(s, step, s')
    case _ => s'.views == s.views && Begins(s, step, s')
  }

  ghost predicate Begins(s: Sys, step: Step, s': Sys)
    requires s'.versions != [] && !step.Sweep? && !step.Finish?
  {
    && step.o !in s.pending && step.o in s'.pending
    && s'.pending == s.pending[step.o := s'.pending[step.o]]
    && Opens(s, Rows(s'), |s'.versions| - 1, step, s'.pending[step.o])
  }

  // ----- the invariant: a cached expiry lies between expiries the row had recently -----

  /** Version j was the table at some instant no earlier than t. */
  predicate InForceSince(s: Sys, j: nat, t: int)
    requires j < |s.versions| == |s.since|
  {
    j + 1 < |s.since| ==> t <= s.since[j + 1]
  }

  /** The cached expiry, if any, is no later than the row of a version in force since t. */
  ghost predicate NotAbove(s: Sys, cache: Bans, t: int, ip: string)
    requires |s.versions| == |s.since|
  {
    ip in cache ==>
      exists j :: 0 <= j < |s.versions| && InForceSince(s, j, t)
               && ip in s.versions[j] && cache[ip] <= s.versions[j][ip]
  }

  /** Version j had no row for `ip`, an expired one, or one no later than the cache's. */
  ghost predicate RowBelow(s: Sys, cache: Bans, ip: string, j: nat)
    requires j < |s.versions|
  {
    ip in s.versions[j] ==> s.versions[j][ip] <= s.clock || (ip in cache && s.versions[j][ip] <= cache[ip])
  }

  ghost predicate NotBelow(s: Sys, cache: Bans, t: int, ip: string)
    requires |s.versions| == |s.since|
  {
    exists j :: 0 <= j < |s.versions| && InForceSince(s, j, t) && RowBelow(s, cache, ip, j)
  }

  ghost predicate Between(s: Sys, cache: Bans, whole: bool, t: int)
    requires |s.versions| == |s.since|
  {
    && (forall ip :: NotAbove(s, cache, t, ip))
    && (whole ==> forall ip :: NotBelow(s, cache, t, ip))
  }

  ghost predicate Sound(lag: nat, s: Sys, v: View)
    requires |s.versions| == |s.since|
  {
    v.refreshed <= s.clock && Between(s, v.cache, v.whole, v.refreshed - lag)
  }

  /**
   * What the first half of an operation saw was the table from then on; and a version recent enough for the
   * view in which an entry was found expired had no unexpired row for it.
   */
  ghost predicate Grounded(lag: nat, s: Sys, p: Pending)
    requires |s.versions| == |s.since|
  {
    && p.at <= s.clock
    && (!p.Forget? ==> p.base < |s.versions| && InForceSince(s, p.base, p.at))
    && match p
       case Load(_, _, base, rows, whole) =>
         && (forall ip :: ip in rows ==> ip in s.versions[base] && rows[ip] <= s.versions[base][ip])
         && (whole ==> forall ip :: RowBelow(s, rows, ip, base))
       case Put(_, _, base, ip, until) => ip in s.versions[base] && until <= s.versions[base][ip]
       case Drop(_, _, base, ip) => ip !in s.versions[base]
       case Forget(_, _, ip, seen) =>
         seen.refreshed <= s.clock && (seen.whole ==> NotBelow(s, map[], seen.refreshed - lag, ip))
  }

  ghost predicate Ordered(s: Sys) {
    && |s.since| == |s.versions| >= 1
    && s.since[|s.since| - 1] <= s.clock
  }

  ghost predicate Inv(lag: nat, s: Sys) {
    && Ordered(s)
    && (forall i :: i in s.views ==> Sound(lag, s, s.views[i]))
    && (forall o :: o in s.pending ==> Grounded(lag, s, s.pending[o]))
  }

  /**
   * A question that found an expired entry drops it in a second step, unconditionally. That is harmless if
   * the view was not reloaded in between, or if the entry dropped has expired too.
   */
  predicate Harmless(s: Sys, step: Step) {
    step.Finish? && step.o in s.pending && s.pending[step.o].Forget? ==>
      var p := s.pending[step.o];
      DropsInPlace(p, ViewOf(s, p.i), step.now)
  }

  predicate DropsInPlace(p: Pending, v: View, now: Time)
    requires p.Forget?
  {
    || (v.refreshed == p.seen.refreshed && v.whole == p.seen.whole)
    || p.ip !in v.cache || v.cache[p.ip] < now
  }

  /** Time passes and versions are only ever added. */
  ghost predicate Grows(s: Sys, s': Sys) {
    && |s.versions| == |s.since| && |s'.versions| == |s'.since|
    && s.versions <= s'.versions && s.since <= s'.since && s.clock <= s'.clock
    && forall j :: |s.since| <= j < |s'.since| ==> s.clock <= s'.since[j]
  }

  lemma StepGrows(s: Sys, step: Step, s': Sys)
    requires Ordered(s) && Advances(s, step, s')
    ensures Grows(s, s') && Ordered(s')
  {
  }

  lemma StaysInForce(s: Sys, s': Sys, j: nat, t: int)
    requires Grows(s, s') && j < |s.versions| && InForceSince(s, j, t) && t <= s.clock
    ensures j < |s'.versions| && s'.versions[j] == s.versions[j] && InForceSince(s', j, t)
  {
  }

  lemma NotAboveStays(s: Sys, s': Sys, cache: Bans, t: int, ip: string)
    requires Grows(s, s') && t <= s.clock && NotAbove(s, cache, t, ip)
    ensures NotAbove(s', cache, t, ip)
  {
    if ip in cache {
      var j :| 0 <= j < |s.versions| && InForceSince(s, j, t) && ip in s.versions[j] && cache[ip] <= s.versions[j][ip];
      StaysInForce(s, s', j, t);
    }
  }

  lemma NotBelowStays(s: Sys, s': Sys, cache: Bans, t: int, ip: string)
    requires Grows(s, s') && t <= s.clock && NotBelow(s, cache, t, ip)
    ensures NotBelow(s', cache, t, ip)
  {
    var j :| 0 <= j < |s.versions| && InForceSince(s, j, t) && RowBelow(s, cache, ip, j);
    StaysInForce(s, s', j, t);
    assert RowBelow(s', cache, ip, j);
  }

  /** A process that does nothing stays sound when others change the table or time passes. */
  lemma BystanderStaysSound(lag: nat, s: Sys, s': Sys, v: View)
    requires Grows(s, s') && Sound(lag, s, v)
    ensures Sound(lag, s', v)
  {
    var t := v.refreshed - lag;
    forall ip ensures NotAbove(s', v.cache, t, ip) {
      NotAboveStays(s, s', v.cache, t, ip);
    }
    if v.whole {
      forall ip ensures NotBelow(s', v.cache, t, ip) {
        NotBelowStays(s, s', v.cache, t, ip);
      }
    }
  }

  lemma PendingStaysGrounded(lag: nat, s: Sys, s': Sys, p: Pending)
    requires Grows(s, s') && Grounded(lag, s, p)
    ensures Grounded(lag, s', p)
  {
    if p.Forget? {
      if p.seen.whole {
        NotBelowStays(s, s', map[], p.seen.refreshed - lag, p.ip);
      }
    } else {
      StaysInForce(s, s', p.base, p.at);
      if p.Load? && p.whole {
        forall ip ensures RowBelow(s', p.rows, ip, p.base) {
          assert RowBelow(s, p.rows, ip, p.base);
        }
      }
    }
  }

  /** Whatever bounds a cached expiry from below bounds a later one too, and needs nothing of an expired one. */
  lemma NotBelowCarries(s: Sys, cache: Bans, cache': Bans, t: int, ip: string)
    requires |s.versions| == |s.since| && NotBelow(s, cache, t, ip)
    requires ip in cache ==> cache[ip] <= s.clock || (ip in cache' && cache[ip] <= cache'[ip])
    ensures NotBelow(s, cache', t, ip)
  {
    var j :| 0 <= j < |s.versions| && InForceSince(s, j, t) && RowBelow(s, cache, ip, j);
    assert RowBelow(s, cache', ip, j);
  }

  /** A reload, once installed, establishes soundness however others changed the table since its select. */
  lemma LoadLandsSound(lag: nat, s: Sys, p: Pending)
    requires |s.versions| == |s.since| && Grounded(lag, s, p) && p.Load? && s.clock <= p.at + lag
    ensures Sound(lag, s, View(p.rows, s.clock, p.whole))
  {
    var t := s.clock - lag;
    assert InForceSince(s, p.base, t);
    forall ip ensures NotAbove(s, p.rows, t, ip) {
      assert ip in p.rows ==> ip in s.versions[p.base] && p.rows[ip] <= s.versions[p.base][ip];
    }
    if p.whole {
      forall ip ensures NotBelow(s, p.rows, t, ip) {
        assert RowBelow(s, p.rows, ip, p.base);
      }
    }
  }

  lemma PutLandsNotAbove(lag: nat, s: Sys, cache: Bans, p: Pending, t: int, ip: string)
    requires |s.versions| == |s.since| && Grounded(lag, s, p) && p.Put? && t <= p.at && NotAbove(s, cache, t, ip)
    ensures NotAbove(s, Extended(cache, p.ip, p.until), t, ip)
  {
    var cache' := Extended(cache, p.ip, p.until);
    if ip == p.ip && cache'[ip] == p.until {
      assert InForceSince(s, p.base, t) && ip in s.versions[p.base] && cache'[ip] <= s.versions[p.base][ip];
    }
  }

  /** A ban written through keeps soundness, even over a reload installed in between. */
  lemma PutLandsSound(lag: nat, s: Sys, v: View, p: Pending)
    requires |s.versions| == |s.since| && Sound(lag, s, v) && Grounded(lag, s, p) && p.Put? && s.clock <= p.at + lag
    ensures Sound(lag, s, Landed(v, p, s.clock))
  {
    var cache' := Extended(v.cache, p.ip, p.until);
    var t := v.refreshed - lag;
    forall ip ensures NotAbove(s, cache', t, ip) {
      PutLandsNotAbove(lag, s, v.cache, p, t, ip);
    }
    if v.whole {
      forall ip ensures NotBelow(s, cache', t, ip) {
        NotBelowCarries(s, v.cache, cache', t, ip);
      }
    }
  }

  lemma DropLandsNotBelow(lag: nat, s: Sys, cache: Bans, p: Pending, t: int, ip: string)
    requires |s.versions| == |s.since| && Grounded(lag, s, p) && p.Drop? && t <= p.at && NotBelow(s, cache, t, ip)
    ensures NotBelow(s, cache - {p.ip}, t, ip)
  {
    if ip == p.ip {
      assert InForceSince(s, p.base, t) && RowBelow(s, cache - {p.ip}, ip, p.base);
    } else {
      NotBelowCarries(s, cache, cache - {p.ip}, t, ip);
    }
  }

  lemma ForgetLandsNotBelow(lag: nat, s: Sys, v: View, p: Pending, ip: string)
    requires |s.versions| == |s.since| && Grounded(lag, s, p) && p.Forget? && DropsInPlace(p, v, s.clock)
    requires v.whole && NotBelow(s, v.cache, v.refreshed - lag, ip)
    ensures NotBelow(s, v.cache - {p.ip}, v.refreshed - lag, ip)
  {
    if ip == p.ip && ip in v.cache && v.cache[ip] >= s.clock {
      NotBelowCarries(s, map[], v.cache - {p.ip}, v.refreshed - lag, ip);
    } else {
      NotBelowCarries(s, v.cache, v.cache - {p.ip}, v.refreshed - lag, ip);
    }
  }

  /** So does an unban, and so does a harmless removal. */
  lemma RemovalLandsSound(lag: nat, s: Sys, v: View, p: Pending)
    requires |s.versions| == |s.since| && Sound(lag, s, v) && Grounded(lag, s, p) && s.clock <= p.at + lag
    requires p.Drop? || (p.Forget? && DropsInPlace(p, v, s.clock))
    ensures Sound(lag, s, Landed(v, p, s.clock))
  {
    var cache' := v.cache - {p.ip};
    var t := v.refreshed - lag;
    forall ip ensures NotAbove(s, cache', t, ip) {
      assert NotAbove(s, v.cache, t, ip);
    }
    if v.whole {
      forall ip ensures NotBelow(s, cache', t, ip) {
        if p.Drop? {
          DropLandsNotBelow(lag, s, v.cache, p, t, ip);
        } else {
          ForgetLandsNotBelow(lag, s, v, p, ip);
        }
      }
    }
  }

  lemma LandedIsSound(lag: nat, s: Sys, v: View, p: Pending)
    requires |s.versions| == |s.since| && Grounded(lag, s, p) && s.clock <= p.at + lag
    requires !p.Load? ==> Sound(lag, s, v)
    requires p.Forget? ==> DropsInPlace(p, v, s.clock)
    ensures Sound(lag, s, Landed(v, p, s.clock))
  {
    if p.Load? {
      LoadLandsSound(lag, s, p);
    } else if p.Put? {
      PutLandsSound(lag, s, v, p);
    } else {
      RemovalLandsSound(lag, s, v, p);
    }
  }

  lemma LapsedIsGrounded(lag: nat, s: Sys, s': Sys, v: View, ip: string)
    requires Grows(s, s') && Sound(lag, s, v) && Lapsed(v, ip, s'.clock)
    ensures v.whole ==> NotBelow(s', map[], v.refreshed - lag, ip)
  {
    if v.whole {
      BystanderStaysSound(lag, s, s', v);
      assert NotBelow(s', v.cache, v.refreshed - lag, ip);
      NotBelowCarries(s', v.cache, map[], v.refreshed - lag, ip);
    }
  }

  /** The first half of an operation is grounded in the table it leaves. */
  lemma OpenedIsGrounded(lag: nat, s: Sys, step: Step, s': Sys)
    requires Inv(lag, s) && Next(lag, s, step, s') && !step.Sweep? && !step.Finish? && Begins(s, step, s')
    requires step.Ask? ==> step.i in s.views && Lapsed(s.views[step.i], step.ip, step.now)
    ensures Grounded(lag, s', s'.pending[step.o])
  {
    StepGrows(s, step, s');
    var p := s'.pending[step.o];
    if step.Select? {
      if p.whole {
        forall ip ensures RowBelow(s', p.rows, ip, p.base) {
          assert p.rows == Active(Rows(s'), step.now);
        }
      }
    } else if step.Ask? {
      LapsedIsGrounded(lag, s, s', s.views[step.i], step.ip);
    }
  }

  lemma FinishKeepsSound(lag: nat, s: Sys, step: Step, s': Sys)
    requires Inv(lag, s) && Next(lag, s, step, s') && step.Finish? && Harmless(s, step)
    ensures |s'.versions| == |s'.since| && Sound(lag, s', s'.views[s.pending[step.o].i])
  {
    StepGrows(s, step, s');
    var p := s.pending[step.o];
    PendingStaysGrounded(lag, s, s', p);
    if !p.Load? {
      BystanderStaysSound(lag, s, s', s.views[p.i]);
    }
    LandedIsSound(lag, s', ViewOf(s, p.i), p);
  }

  /** Every step of every process keeps the invariant, unless it drops an entry it should not. */
  lemma StepKeepsInv(lag: nat, s: Sys, step: Step, s': Sys)
    requires Inv(lag, s) && Next(lag, s, step, s') && Harmless(s, step)
    ensures Inv(lag, s')
  {
    StepGrows(s, step, s');
    forall i | i in s'.views ensures Sound(lag, s', s'.views[i]) {
      if step.Finish? && i == s.pending[step.o].i {
        FinishKeepsSound(lag, s, step, s');
      } else {
        BystanderStaysSound(lag, s, s', s.views[i]);
      }
    }
    forall o | o in s'.pending ensures Grounded(lag, s', s'.pending[o]) {
      if o in s.pending {
        PendingStaysGrounded(lag, s, s', s.pending[o]);
      } else {
        OpenedIsGrounded(lag, s, step, s');
      }
    }
  }

  /** The state a fresh deployment starts in, whatever the table holds, is sound. */
  lemma StartIsSound(lag: nat, rows: Bans, now: Time)
    ensures Inv(lag, Sys([rows], [now], map[], map[], now))
  {
  }

  ghost predicate StepAt(lag: nat, states: seq<Sys>, steps: seq<Step>, n: nat)
    requires n < |steps| < |states|
  {
    Next(lag, states[n], steps[n], states[n + 1])
  }

  /** A run of the system from any sound state. */
  ghost predicate Run(lag: nat, states: seq<Sys>, steps: seq<Step>) {
    && |states| == |steps| + 1
    && Inv(lag, states[0])
    && forall n :: 0 <= n < |steps| ==> StepAt(lag, states, steps, n)
  }

  lemma RunContinues(lag: nat, states: seq<Sys>, steps: seq<Step>, step: Step, s': Sys)
    requires Run(lag, states, steps) && Next(lag, states[|steps|], step, s')
    ensures Run(lag, states + [s'], steps + [step])
  {
    var states', steps' := states + [s'], steps + [step];
    forall n | 0 <= n < |steps'| ensures StepAt(lag, states', steps', n) {
      if n < |steps| {
        assert StepAt(lag, states, steps, n);
      }
    }
  }

  lemma RunContinuesTwice(lag: nat, states: seq<Sys>, steps: seq<Step>, a: Step, s1: Sys, b: Step, s2: Sys)
    returns (states': seq<Sys>, steps': seq<Step>)
    requires Run(lag, states, steps) && Next(lag, states[|steps|], a, s1) && Next(lag, s1, b, s2)
    ensures Run(lag, states', steps') && states' == states + [s1, s2] && steps' == steps + [a, b]
  {
    RunContinues(lag, states, steps, a, s1);
    RunContinues(lag, states + [s1], steps + [a], b, s2);
    states', steps' := states + [s1] + [s2], steps + [a] + [b];
  }

  lemma {:induction false} RunKeepsInv(lag: nat, states: seq<Sys>, steps: seq<Step>, n: nat)
    requires Run(lag, states, steps) && n <= |steps|
    requires forall m :: 0 <= m < n ==> Harmless(states[m], steps[m])
    ensures Inv(lag, states[n])
  {
    if n > 0 {
      RunKeepsInv(lag, states, steps, n - 1);
      assert StepAt(lag, states, steps, n - 1);
      StepKeepsInv(lag, states[n - 1], steps[n - 1], states[n]);
    }
  }

  /** So a staleness check made before others of the same process reloaded stays valid. */
  lemma RefreshedNeverFalls(lag: nat, s: Sys, step: Step, s': Sys, i: nat)
    requires Inv(lag, s) && Next(lag, s, step, s') && i in s.views
    ensures i in s'.views && s.views[i].refreshed <= s'.views[i].refreshed
  {
  }

  // ----- answers -----

  /** In a sound state an answer is what some version of the table in force within the last TTL says. */
  lemma SoundAnswer(lag: nat, s: Sys, i: nat, ip: string, age: Time, now: Time)
    requires Inv(lag, s) && CanAsk(lag, s, i, ip, age, now)
    ensures exists j :: 0 <= j < |s.versions| && InForceSince(s, j, now - TTL - 2 * lag)
              && Banned(s.versions[j], ip, now) == Banned(s.views[i].cache, ip, now)
  {
    var v := s.views[i];
    var t := v.refreshed - lag;
    assert Sound(lag, s, v) && t >= now - TTL - 2 * lag;
    if Banned(v.cache, ip, now) {
      assert NotAbove(s, v.cache, t, ip);
      var j :| 0 <= j < |s.versions| && InForceSince(s, j, t)
        && ip in s.versions[j] && v.cache[ip] <= s.versions[j][ip];
      assert InForceSince(s, j, now - TTL - 2 * lag);
    } else {
      assert NotBelow(s, v.cache, t, ip);
      var j :| 0 <= j < |s.versions| && InForceSince(s, j, t) && RowBelow(s, v.cache, ip, j);
      assert InForceSince(s, j, now - TTL - 2 * lag);
    }
  }

  /**
   * Process i may be asked about `ip` now. "Banned" needs no assumption; "not banned" needs every active row
   * to have fitted in the cache, and the instant not to be the very one at which a row of the IP expires.
   */
  ghost predicate CanAsk(lag: nat, s: Sys, i: nat, ip: string, age: Time, now: Time) {
    && i in s.views && s.clock <= now && MayAnswer(lag, s.views[i], age, now)
    && (!Banned(s.views[i].cache, ip, now) ==> s.views[i].whole)
    && forall j :: 0 <= j < |s.versions| && ip in s.versions[j] ==> s.versions[j][ip] != now
  }

  /** Step n installs a reload of process i. */
  predicate Reloads(s: Sys, step: Step, i: nat) {
    step.Finish? && step.o in s.pending && s.pending[step.o].Load? && s.pending[step.o].i == i
  }

  /** Until a removal lands, its process's reload stamp is the one its question saw. */
  ghost predicate NoReloadSince(s: Sys, p: Pending) {
    p.Forget? ==> p.i in s.views && s.views[p.i].refreshed == p.seen.refreshed && s.views[p.i].whole == p.seen.whole
  }

  /** A step that installs no reload of a process with a removal in flight keeps every such stamp. */
  lemma StampsStay(lag: nat, s: Sys, step: Step, s': Sys)
    requires Next(lag, s, step, s') && forall o :: o in s.pending ==> NoReloadSince(s, s.pending[o])
    requires forall o :: o in s.pending && s.pending[o].Forget? ==> !Reloads(s, step, s.pending[o].i)
    ensures forall o :: o in s'.pending ==> NoReloadSince(s', s'.pending[o])
    ensures Harmless(s, step)
  {
    forall o | o in s'.pending ensures NoReloadSince(s', s'.pending[o]) {
      if o in s.pending {
        assert NoReloadSince(s, s.pending[o]);
      }
    }
  }

  /** No process installs a reload between a question of its own that found an expired entry and the removal of it. */
  ghost predicate Undisturbed(states: seq<Sys>, steps: seq<Step>) {
    && |steps| < |states| && states[0].pending == map[]
    && forall m :: 0 <= m < |steps| ==> UndisturbedAt(states[m], steps[m])
  }

  ghost predicate UndisturbedAt(s: Sys, step: Step) {
    forall o :: o in s.pending && s.pending[o].Forget? ==> !Reloads(s, step, s.pending[o].i)
  }

  lemma {:induction false} UndisturbedIsHarmless(lag: nat, states: seq<Sys>, steps: seq<Step>, n: nat)
    requires Run(lag, states, steps) && Undisturbed(states, steps) && n <= |steps|
    ensures forall o :: o in states[n].pending ==> NoReloadSince(states[n], states[n].pending[o])
    ensures forall m :: 0 <= m < n ==> Harmless(states[m], steps[m])
  {
    if n > 0 {
      UndisturbedIsHarmless(lag, states, steps, n - 1);
      assert StepAt(lag, states, steps, n - 1) && UndisturbedAt(states[n - 1], steps[n - 1]);
      StampsStay(lag, states[n - 1], steps[n - 1], states[n]);
    }
  }

  /**
   * The answer of isBanned, on any process in any such run, is what a version of the table that was in force
   * within the last TTL says at the instant of the answer, give or take twice the lag.
   */
  lemma AnswerReflectsARecentRow(lag: nat, states: seq<Sys>, steps: seq<Step>, n: nat, i: nat, ip: string,
                                 age: Time, now: Time)
    requires Run(lag, states, steps) && Undisturbed(states, steps) && n <= |steps|
    requires CanAsk(lag, states[n], i, ip, age, now)
    ensures exists j :: 0 <= j < |states[n].versions| == |states[n].since|
              && InForceSince(states[n], j, now - TTL - 2 * lag)
              && Banned(states[n].versions[j], ip, now) == Banned(states[n].views[i].cache, ip, now)
  {
    UndisturbedIsHarmless(lag, states, steps, n);
    RunKeepsInv(lag, states, steps, n);
    SoundAnswer(lag, states[n], i, ip, age, now);
  }

  /** So a ban or an unban by any process is obeyed by every other within TTL. */
  lemma ChangesPropagateWithinTTL(lag: nat, states: seq<Sys>, steps: seq<Step>, n: nat, i: nat, ip: string,
                                  age: Time, now: Time, banned: bool)
    requires Run(lag, states, steps) && Undisturbed(states, steps) && n <= |steps|
    requires CanAsk(lag, states[n], i, ip, age, now) && |states[n].versions| == |states[n].since|
    requires forall j :: 0 <= j < |states[n].versions| && InForceSince(states[n], j, now - TTL - 2 * lag) ==>
               Banned(states[n].versions[j], ip, now) == banned
    ensures Banned(states[n].views[i].cache, ip, now) == banned
  {
    AnswerReflectsARecentRow(lag, states, steps, n, i, ip, age, now);
    var j :| 0 <= j < |states[n].versions| && InForceSince(states[n], j, now - TTL - 2 * lag)
      && Banned(states[n].versions[j], ip, now) == Banned(states[n].views[i].cache, ip, now);
  }

  /** Operations are atomic: whenever one is half done, the next step of anyone finishes it. */
  ghost predicate Atomic(states: seq<Sys>, steps: seq<Step>) {
    && |steps| < |states| && states[0].pending == map[]
    && forall m :: 0 <= m < |steps| ==> AtomicAt(states[m], steps[m])
  }

  ghost predicate AtomicAt(s: Sys, step: Step) {
    s.pending != map[] ==> step.Finish?
  }

  lemma {:induction false} AtomicLeavesOne(lag: nat, states: seq<Sys>, steps: seq<Step>, n: nat)
    requires Run(lag, states, steps) && Atomic(states, steps) && n <= |steps|
    ensures |states[n].pending.Keys| <= 1
  {
    if n > 0 {
      AtomicLeavesOne(lag, states, steps, n - 1);
      assert StepAt(lag, states, steps, n - 1) && AtomicAt(states[n - 1], steps[n - 1]);
      OnlyFinishesWhenOpen(lag, states[n - 1], steps[n - 1], states[n]);
    }
  }

  lemma OnlyFinishesWhenOpen(lag: nat, s: Sys, step: Step, s': Sys)
    requires Next(lag, s, step, s') && AtomicAt(s, step) && |s.pending.Keys| <= 1
    ensures |s'.pending.Keys| <= 1
  {
    if step.Finish? {
      assert s'.pending.Keys == s.pending.Keys - {step.o};
    } else {
      assert s.pending == map[];
      if s'.pending != s.pending {
        assert s'.pending.Keys == {step.o};
      }
    }
  }

  lemma AtomicIsUndisturbed(lag: nat, states: seq<Sys>, steps: seq<Step>)
    requires Run(lag, states, steps) && Atomic(states, steps)
    ensures Undisturbed(states, steps)
  {
    forall m | 0 <= m < |steps| ensures UndisturbedAt(states[m], steps[m]) {
      AtomicLeavesOne(lag, states, steps, m);
      OneInFlight(states[m], steps[m]);
    }
  }

  lemma OneInFlight(s: Sys, step: Step)
    requires |s.pending.Keys| <= 1
    ensures UndisturbedAt(s, step)
  {
    forall o | o in s.pending && s.pending[o].Forget? ensures !Reloads(s, step, s.pending[o].i) {
      if step.Finish? && step.o in s.pending && step.o != o {
        SubsetSize({o, step.o}, s.pending.Keys);
        assert false;
      }
    }
  }

  /** With atomic operations the bound is exactly TTL. */
  lemma AtomicAnswerReflectsTTL(states: seq<Sys>, steps: seq<Step>, n: nat, i: nat, ip: string, now: Time)
    requires Run(0, states, steps) && Atomic(states, steps) && n <= |steps|
    requires CanAsk(0, states[n], i, ip, now, now)
    ensures exists j :: 0 <= j < |states[n].versions| == |states[n].since|
              && InForceSince(states[n], j, now - 2 * SECOND)
              && Banned(states[n].versions[j], ip, now) == Banned(states[n].views[i].cache, ip, now)
  {
    AtomicIsUndisturbed(0, states, steps);
    AnswerReflectsARecentRow(0, states, steps, n, i, ip, now, now);
  }

  /**
   * The condition cannot be dropped, even with no lag. Process 0 holds a ban that expires at 2 s; process 1
   * extends it in the table at 1 s. At 3 s process 0 is asked and finds its entry expired, reloads, and only
   * then drops the entry - the extended one. At 5 s it answers "not banned", although every version in
   * force since 3 s bans the IP.
   */
  lemma LateRemovalBreaksTheBound(ip: string) returns (states: seq<Sys>, steps: seq<Step>)
    requires ip != ""
    ensures Run(0, states, steps) && |steps| == 7
    ensures AllVersionsBanBut(states[7], 0, ip, 5 * SECOND)
  {
    var s := SECOND;
    states, steps := BanExtendedElsewhere(ip);
    var s4, s5 := AsksAndSelects(states[3], ip);
    states, steps := RunContinuesTwice(0, states, steps, Ask(2, 0, ip, 3 * s, 3 * s), s4, Select(3, 0, 3 * s), s5);
    var s6, s7 := ReloadsAndDrops(s5, ip);
    states, steps := RunContinuesTwice(0, states, steps, Finish(3, 3 * s), s6, Finish(2, 3 * s), s7);
    MissesTheBan(s7, ip);
  }

  /** Process i may be asked now and answers "not banned", and every version in force within TTL bans the IP. */
  ghost predicate AllVersionsBanBut(s: Sys, i: nat, ip: string, now: Time) {
    && CanAsk(0, s, i, ip, now, now) && !Banned(s.views[i].cache, ip, now)
    && |s.versions| == |s.since|
    && forall j :: 0 <= j < |s.versions| && InForceSince(s, j, now - TTL) ==> Banned(s.versions[j], ip, now)
  }

  lemma MissesTheBan(s: Sys, ip: string)
    requires s.versions == Extending(ip).versions && s.since == [0, SECOND] && s.clock == 3 * SECOND
    requires s.views == map[0 := View(map[], 3 * SECOND, true)]
    ensures AllVersionsBanBut(s, 0, ip, 5 * SECOND)
  {
    assert !InForceSince(s, 0, 5 * SECOND - TTL);
    assert Banned(s.versions[1], ip, 5 * SECOND);
  }

  /** The state at 1 s. Process 1 has written its ban to the table and need not get any further. */
  function Extending(ip: string): Sys {
    Sys([map[ip := 2 * SECOND], map[ip := 100 * SECOND]], [0, SECOND],
        map[0 := View(map[ip := 2 * SECOND], SECOND, true)],
        map[1 := Put(1, SECOND, 1, ip, 100 * SECOND)], SECOND)
  }

  lemma BanExtendedElsewhere(ip: string) returns (states: seq<Sys>, steps: seq<Step>)
    requires ip != ""
    ensures Run(0, states, steps) && |steps| == 3 && states[3] == Extending(ip)
  {
    var s := SECOND;
    var s0, s1, s2 := LoadsThenExtends(ip);
    StartIsSound(0, map[ip := 2 * s], 0);
    states, steps := [s0], [];
    RunContinues(0, states, steps, Select(0, 0, s), s1);
    states, steps := states + [s1], steps + [Select(0, 0, s)];
    RunContinues(0, states, steps, Finish(0, s), s2);
    states, steps := states + [s2], steps + [Finish(0, s)];
    RunContinues(0, states, steps, Upsert(1, 1, ip, 100 * s, s), Extending(ip));
    states, steps := states + [Extending(ip)], steps + [Upsert(1, 1, ip, 100 * s, s)];
  }

  lemma LoadsThenExtends(ip: string) returns (s0: Sys, s1: Sys, s2: Sys)
    requires ip != ""
    ensures s0 == Sys([map[ip := 2 * SECOND]], [0], map[], map[], 0)
    ensures Next(0, s0, Select(0, 0, SECOND), s1) && Next(0, s1, Finish(0, SECOND), s2)
    ensures Next(0, s2, Upsert(1, 1, ip, 100 * SECOND, SECOND), Extending(ip))
  {
    var s := SECOND;
    var short: Bans := map[ip := 2 * s];
    assert Active(short, s) == short && Extended(short, ip, 100 * s) == map[ip := 100 * s];
    s0 := Sys([short], [0], map[], map[], 0);
    s1 := s0.(pending := map[0 := Load(0, s, 0, short, true)], clock := s);
    s2 := s1.(views := map[0 := View(short, s, true)], pending := map[]);
  }

  lemma AsksAndSelects(s3: Sys, ip: string) returns (s4: Sys, s5: Sys)
    requires s3 == Extending(ip)
    ensures Next(0, s3, Ask(2, 0, ip, 3 * SECOND, 3 * SECOND), s4) && Next(0, s4, Select(3, 0, 3 * SECOND), s5)
    ensures s5 == s3.(pending := s3.pending[2 := Forget(0, 3 * SECOND, ip, s3.views[0])]
                                           [3 := Load(0, 3 * SECOND, 1, map[ip := 100 * SECOND], true)],
                      clock := 3 * SECOND)
  {
    var long: Bans := map[ip := 100 * SECOND];
    assert Active(long, 3 * SECOND) == long;
    s4 := s3.(pending := s3.pending[2 := Forget(0, 3 * SECOND, ip, s3.views[0])], clock := 3 * SECOND);
    s5 := s4.(pending := s4.pending[3 := Load(0, 3 * SECOND, 1, long, true)]);
  }

  lemma ReloadsAndDrops(s5: Sys, ip: string) returns (s6: Sys, s7: Sys)
    requires s5.versions == Extending(ip).versions && s5.views.Keys == {0} && s5.clock == 3 * SECOND
    requires 2 in s5.pending && s5.pending[2].Forget? && s5.pending[2].i == 0 && s5.pending[2].ip == ip
    requires 3 in s5.pending && s5.pending[3] == Load(0, 3 * SECOND, 1, map[ip := 100 * SECOND], true)
    requires s5.pending[2].at == 3 * SECOND
    ensures Next(0, s5, Finish(3, 3 * SECOND), s6) && Next(0, s6, Finish(2, 3 * SECOND), s7)
    ensures s7.views == map[0 := View(map[], 3 * SECOND, true)]
    ensures s7.versions == s5.versions && s7.since == s5.since && s7.clock == s5.clock
  {
    s6 := s5.(views := map[0 := View(map[ip := 100 * SECOND], 3 * SECOND, true)], pending := s5.pending - {3});
    assert map[ip := 100 * SECOND] - {ip} == map[];
    s7 := s6.(views := map[0 := View(map[], 3 * SECOND, true)], pending := s6.pending - {2});
  }
}
