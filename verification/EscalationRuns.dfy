/**
 * Any number of requests on any number of processes inside recordIPFailure at once (portal/main.go,
 * portal/store_policy.go): each of its statements is a step. Every process asks its own cache of the ban
 * table, and that cache may change at any time.
 */
module EscalationRuns {
  import opened Common
  import opened IpBans
  import opened Escalation

  /** How far a request that passed the checks of recordIPFailure has got. */
  datatype Pc =
    | Idle
    | Passed(i: nat, ip: string)
    | Counted(i: nat, ip: string, ordinal: nat)
    | Fetched(i: nat, ip: string, ordinal: nat, count: nat)

  /** A ban that was issued: the ip's ordinal-th, after reading `count` back from the history. */
  datatype Issue = Issue(ip: string, ordinal: nat, count: nat, until: Time)

  /** `caches` holds each process's view of the table. */
  datatype Sys = Sys(history: Counts, table: Bans, caches: map<nat, Bans>, requests: map<nat, Pc>, issued: seq<Issue>)

  function CacheOf(s: Sys, i: nat): Bans {
    if i in s.caches then s.caches[i] else map[]
  }

  function PcOf(s: Sys, r: nat): Pc {
    if r in s.requests then s.requests[r] else Idle
  }

  /**
   * Pass is a request of process i that reached the limit and found no unexpired ban in that process's cache.
   * Recache is whatever else happens to a cache: a reload, an unban, the removal of an expired entry.
   */
  datatype Step =
    | Pass(r: nat, i: nat, ip: string, now: Time)
    | Increment(r: nat)
    | Fetch(r: nat)
    | Ban(r: nat, remaining: Time, now: Time)
    | Recache(i: nat, cache: Bans)
    | SignIn(ip: string)
    | Sweep(now: Time)
    | AdminReset(ip: string)

  ghost predicate Next(p: Policy, s: Sys, step: Step, s': Sys) {
    match step
    case Pass(r, i, ip, now) =>
      && PcOf(s, r) == Idle && ip != "" && !Banned(CacheOf(s, i), ip, now)
      && s' == s.(requests := s.requests[r := Passed(i, ip)])
    case Increment(r) =>
      && PcOf(s, r).Passed?
      && var pc := PcOf(s, r);
         var h := Incremented(s.history, pc.ip);
         s' == s.(history := h, requests := s.requests[r := Counted(pc.i, pc.ip, h[pc.ip])])
    case Fetch(r) =>
      && PcOf(s, r).Counted?
      && var pc := PcOf(s, r);
         s' == s.(requests := s.requests[r := Fetched(pc.i, pc.ip, pc.ordinal, CountOf(s.history, pc.ip))])
    case Ban(r, remaining, now) =>
      && PcOf(s, r).Fetched? && remaining <= now
      && var pc := PcOf(s, r);
         var until := BanUntil(p, pc.count, remaining, now);
         && until >= 0
         && s' == Sys(s.history, Extended(s.table, pc.ip, until),
                      s.caches[pc.i := Extended(CacheOf(s, pc.i), pc.ip, until)], s.requests[r := Idle],
                      s.issued + [Issue(pc.ip, pc.ordinal, pc.count, until)])
    case Recache(i, cache) => s' == s.(caches := s.caches[i := cache])
    case SignIn(ip) => s' == s.(table := s.table - {ip})
    case Sweep(now) => s' == s.(table := Active(s.table, now))
    case AdminReset(ip) => s' == s.(table := s.table - {ip}, history := s.history - {ip})
  }

  /** Requests of `ip` that are in the history but whose ban is not issued yet. */
  function InFlight(s: Sys, ip: string): set<nat> {
    set r | r in s.requests && Flying(s.requests[r], ip)
  }

  function IssuedTo(issued: seq<Issue>, ip: string): nat {
    if issued == [] then 0 else IssuedTo(issued[..|issued| - 1], ip) + if issued[|issued| - 1].ip == ip then 1 else 0
  }

  ghost predicate RequestOk(h: Counts, pc: Pc) {
    && (pc.Counted? || pc.Fetched? ==> 1 <= pc.ordinal <= CountOf(h, pc.ip))
    && (pc.Fetched? ==> pc.ordinal <= pc.count <= CountOf(h, pc.ip))
  }

  ghost predicate IssueOk(p: Policy, h: Counts, i: Issue) {
    && 1 <= i.ordinal <= i.count <= CountOf(h, i.ip)
    && (i.count >= p.escalateAt ==> IsPermanent(i.until))
  }

  ghost predicate Inv(p: Policy, s: Sys) {
    && (forall ip :: CountOf(s.history, ip) == IssuedTo(s.issued, ip) + |InFlight(s, ip)|)
    && (forall r :: r in s.requests ==> RequestOk(s.history, s.requests[r]))
    && (forall i :: 0 <= i < |s.issued| ==> IssueOk(p, s.history, s.issued[i]))
  }

  /** The request is in the history for `ip` and its ban is still to come. */
  predicate Flying(pc: Pc, ip: string) {
    (pc.Counted? || pc.Fetched?) && pc.ip == ip
  }

  /** The in-flight requests of `ip` other than `r`. */
  function OthersInFlight(requests: map<nat, Pc>, r: nat, ip: string): set<nat> {
    set q | q in requests && q != r && Flying(requests[q], ip)
  }

  lemma SplitInFlight(s: Sys, r: nat, ip: string)
    ensures |InFlight(s, ip)| == |OthersInFlight(s.requests, r, ip)| + if Flying(PcOf(s, r), ip) then 1 else 0
  {
    var others := OthersInFlight(s.requests, r, ip);
    if Flying(PcOf(s, r), ip) {
      assert InFlight(s, ip) == others + {r};
    } else {
      assert InFlight(s, ip) == others;
    }
  }

  lemma InFlightSize(s: Sys, s': Sys, r: nat, pc: Pc, ip: string)
    requires s'.requests == s.requests[r := pc]
    ensures |InFlight(s', ip)| - |InFlight(s, ip)| ==
            (if Flying(pc, ip) then 1 else 0) - (if Flying(PcOf(s, r), ip) then 1 else 0)
  {
    SplitInFlight(s, r, ip);
    SplitInFlight(s', r, ip);
    assert OthersInFlight(s.requests, r, ip) == OthersInFlight(s'.requests, r, ip);
  }

  lemma IssuedAppend(issued: seq<Issue>, i: Issue, ip: string)
    ensures IssuedTo(issued + [i], ip) == IssuedTo(issued, ip) + if i.ip == ip then 1 else 0
  {
    assert (issued + [i])[..|issued|] == issued;
  }

  lemma StepBalances(p: Policy, s: Sys, step: Step, s': Sys, ip: string)
    requires Inv(p, s) && Next(p, s, step, s') && !step.AdminReset?
    ensures CountOf(s'.history, ip) == IssuedTo(s'.issued, ip) + |InFlight(s', ip)|
  {
    assert CountOf(s.history, ip) == IssuedTo(s.issued, ip) + |InFlight(s, ip)|;
    if step.SignIn? || step.Sweep? || step.Recache? {
      assert InFlight(s', ip) == InFlight(s, ip);
    } else {
      InFlightSize(s, s', step.r, s'.requests[step.r], ip);
      if step.Ban? {
        IssuedAppend(s.issued, s'.issued[|s.issued|], ip);
      }
    }
  }

  /** Once the count reached the threshold the ban is permanent: its expiry is no earlier than the marker. */
  lemma EscalatedIsPermanent(p: Policy, count: nat, remaining: Time, now: Time)
    requires p.escalateAt > 0 && count >= p.escalateAt && remaining <= now
    ensures BanUntil(p, count, remaining, now) >= PERMANENT_UNTIL > PERMANENT_AFTER
  {
  }

  lemma StepKeepsInv(p: Policy, s: Sys, step: Step, s': Sys)
    requires p.escalateAt > 0 && Inv(p, s) && Next(p, s, step, s') && !step.AdminReset?
    ensures Inv(p, s')
  {
    forall ip ensures CountOf(s'.history, ip) == IssuedTo(s'.issued, ip) + |InFlight(s', ip)| {
      StepBalances(p, s, step, s', ip);
    }
    HistoryNeverFalls(p, s, step, s');
    forall r | r in s'.requests ensures RequestOk(s'.history, s'.requests[r]) {
      if r in s.requests {
        assert RequestOk(s.history, s.requests[r]);
      }
    }
    forall i | 0 <= i < |s'.issued| ensures IssueOk(p, s'.history, s'.issued[i]) {
      if i < |s.issued| {
        assert IssueOk(p, s.history, s.issued[i]);
      }
    }
  }

  /** No step but an administrator's reset lowers any IP's count; a successful sign-in does not. */
  lemma HistoryNeverFalls(p: Policy, s: Sys, step: Step, s': Sys)
    requires Next(p, s, step, s') && !step.AdminReset?
    ensures forall ip :: CountOf(s.history, ip) <= CountOf(s'.history, ip)
  {
  }

  /** A ban gets shorter exactly by a sign-in, an administrator's reset or the sweep of an expired row. */
  lemma BansShrinkExactlyWhen(p: Policy, s: Sys, step: Step, s': Sys, ip: string)
    requires Next(p, s, step, s') && ip in s.table
    ensures !(ip in s'.table && s.table[ip] <= s'.table[ip]) <==>
            step == SignIn(ip) || step == AdminReset(ip) || (step.Sweep? && s.table[ip] <= step.now)
  {
  }

  ghost predicate StepAt(p: Policy, states: seq<Sys>, steps: seq<Step>, n: nat)
    requires n < |steps| < |states|
  {
    Next(p, states[n], steps[n], states[n + 1]) && !steps[n].AdminReset?
  }

  /** A run from an empty history without an administrator's reset. */
  ghost predicate Run(p: Policy, states: seq<Sys>, steps: seq<Step>) {
    && |states| == |steps| + 1
    && states[0] == Sys(map[], states[0].table, states[0].caches, map[], [])
    && forall n :: 0 <= n < |steps| ==> StepAt(p, states, steps, n)
  }

  lemma {:induction false} RunKeepsInv(p: Policy, states: seq<Sys>, steps: seq<Step>, n: nat)
    requires p.escalateAt > 0 && Run(p, states, steps) && n <= |steps|
    ensures Inv(p, states[n])
  {
    if n == 0 {
      assert forall ip :: InFlight(states[0], ip) == {};
    } else {
      RunKeepsInv(p, states, steps, n - 1);
      assert StepAt(p, states, steps, n - 1);
      StepKeepsInv(p, states[n - 1], steps[n - 1], states[n]);
    }
  }

  /**
   * After any interleaving of any number of processes without an administrator's reset: the
   * history of an IP counts its issued bans and those about to be issued, and every ban whose
   * ordinal reached the threshold is permanent.
   */
  lemma HistoryCountsBans(p: Policy, states: seq<Sys>, steps: seq<Step>, n: nat, ip: string)
    requires p.escalateAt > 0 && Run(p, states, steps) && n <= |steps|
    ensures CountOf(states[n].history, ip) == IssuedTo(states[n].issued, ip) + |InFlight(states[n], ip)|
    ensures forall i :: 0 <= i < |states[n].issued| && states[n].issued[i].ordinal >= p.escalateAt ==>
              IsPermanent(states[n].issued[i].until)
  {
    RunKeepsInv(p, states, steps, n);
    forall i | 0 <= i < |states[n].issued| && states[n].issued[i].ordinal >= p.escalateAt
      ensures IsPermanent(states[n].issued[i].until)
    {
      assert IssueOk(p, states[n].history, states[n].issued[i]);
    }
  }

  // ----- when a ban escalates -----

  predicate IncrementsFor(s: Sys, step: Step, ip: string) {
    step.Increment? && PcOf(s, step.r).Passed? && PcOf(s, step.r).ip == ip
  }

  /** Bans of `ip` that entered the history in the steps from..upto. */
  function Increments(states: seq<Sys>, steps: seq<Step>, from: nat, upto: nat, ip: string): nat
    requires from <= upto <= |steps| <= |states|
    decreases upto
  {
    if from == upto then 0
    else
      var before := Increments(states, steps, from, upto - 1, ip);
      before + if IncrementsFor(states[upto - 1], steps[upto - 1], ip) then 1 else 0
  }

  lemma StepIncrements(p: Policy, s: Sys, step: Step, s': Sys, ip: string)
    requires Next(p, s, step, s') && !step.AdminReset?
    ensures CountOf(s'.history, ip) == CountOf(s.history, ip) + if IncrementsFor(s, step, ip) then 1 else 0
  {
  }

  lemma {:induction false} HistoryCountsIncrements(p: Policy, states: seq<Sys>, steps: seq<Step>, from: nat, upto: nat,
                                                   ip: string)
    requires Run(p, states, steps) && from <= upto <= |steps|
    ensures CountOf(states[upto].history, ip) ==
            CountOf(states[from].history, ip) + Increments(states, steps, from, upto, ip)
    decreases upto
  {
    if from < upto {
      HistoryCountsIncrements(p, states, steps, from, upto - 1, ip);
      assert StepAt(p, states, steps, upto - 1);
      StepIncrements(p, states[upto - 1], steps[upto - 1], states[upto], ip);
    }
  }

  /** The step belongs to request r. */
  predicate Moves(step: Step, r: nat) {
    (step.Pass? || step.Increment? || step.Fetch? || step.Ban?) && step.r == r
  }

  predicate Rests(steps: seq<Step>, r: nat, from: nat, upto: nat) {
    upto <= |steps| && forall m :: from <= m < upto ==> !Moves(steps[m], r)
  }

  lemma {:induction false} RestingRequestStays(p: Policy, states: seq<Sys>, steps: seq<Step>, r: nat, from: nat,
                                               upto: nat)
    requires Run(p, states, steps) && from <= upto && Rests(steps, r, from, upto)
    ensures PcOf(states[upto], r) == PcOf(states[from], r)
    decreases upto
  {
    if from < upto {
      RestingRequestStays(p, states, steps, r, from, upto - 1);
      assert StepAt(p, states, steps, upto - 1);
    }
  }

  /** Request r counts its ban at step a, reads the history back at step b and bans at step c. */
  ghost predicate Banning(steps: seq<Step>, r: nat, a: nat, b: nat, c: nat) {
    && a < b < c < |steps|
    && steps[a] == Increment(r) && steps[b] == Fetch(r) && steps[c].Ban? && steps[c].r == r
    && Rests(steps, r, a + 1, b) && Rests(steps, r, b + 1, c)
  }

  lemma RequestAtItsBan(p: Policy, states: seq<Sys>, steps: seq<Step>, r: nat, a: nat, b: nat, c: nat)
    requires Run(p, states, steps) && Banning(steps, r, a, b, c)
    ensures PcOf(states[a], r).Passed?
    ensures var ip := PcOf(states[a], r).ip;
            PcOf(states[c], r) == Fetched(PcOf(states[a], r).i, ip, CountOf(states[a + 1].history, ip),
                                          CountOf(states[b].history, ip))
  {
    assert StepAt(p, states, steps, a) && StepAt(p, states, steps, b);
    RestingRequestStays(p, states, steps, r, a + 1, b);
    RestingRequestStays(p, states, steps, r, b + 1, c);
  }

  /**
   * With any number of processes: the k-th ban of an IP is permanent if and only if k, plus the bans of
   * the same IP that overtook it between its own upsert and its read-back, reaches the threshold. So a
   * ban escalates early by at most the number of requests that overtake it.
   */
  lemma BansEscalateExactlyWhen(p: Policy, states: seq<Sys>, steps: seq<Step>, r: nat, a: nat, b: nat, c: nat)
    requires p.escalateAt > 0 && Run(p, states, steps) && Banning(steps, r, a, b, c)
    requires steps[c].now + p.banDuration <= 766_644 * 86_400 * SECOND
    ensures PcOf(states[a], r).Passed? && |states[c + 1].issued| == |states[c].issued| + 1
    ensures var ip, ban := PcOf(states[a], r).ip, states[c + 1].issued[|states[c].issued|];
            && ban.ip == ip && ban.ordinal == CountOf(states[a].history, ip) + 1
            && (IsPermanent(ban.until) <==> ban.ordinal + Increments(states, steps, a + 1, b, ip) >= p.escalateAt)
  {
    RequestAtItsBan(p, states, steps, r, a, b, c);
    var ip := PcOf(states[a], r).ip;
    HistoryCountsIncrements(p, states, steps, a + 1, b, ip);
    StepIncrementsOwn(p, states, steps, a, r);
    assert StepAt(p, states, steps, c);
    var count := CountOf(states[b].history, ip);
    if count >= p.escalateAt {
      EscalatedIsPermanent(p, count, steps[c].remaining, steps[c].now);
    }
  }

  lemma StepIncrementsOwn(p: Policy, states: seq<Sys>, steps: seq<Step>, a: nat, r: nat)
    requires Run(p, states, steps) && a < |steps| && steps[a] == Increment(r)
    ensures PcOf(states[a], r).Passed?
    ensures var ip := PcOf(states[a], r).ip; CountOf(states[a + 1].history, ip) == CountOf(states[a].history, ip) + 1
  {
    assert StepAt(p, states, steps, a);
    StepIncrements(p, states[a], steps[a], states[a + 1], PcOf(states[a], r).ip);
  }

  // ----- which requests count during a cooldown -----

  /** At step b request r of process i asked about `ip` and was told that it is not banned. */
  ghost predicate AskedAt(states: seq<Sys>, steps: seq<Step>, b: nat, r: nat, i: nat, ip: string)
    requires b < |steps| < |states|
  {
    && steps[b].Pass? && steps[b].r == r && steps[b].i == i && steps[b].ip == ip
    && !Banned(CacheOf(states[b], i), ip, steps[b].now)
  }

  /** A request about to be counted asked at some earlier step, and its process's cache held no ban then. */
  lemma {:induction false} PassedHasAsked(p: Policy, states: seq<Sys>, steps: seq<Step>, n: nat, r: nat)
    returns (b: nat)
    requires Run(p, states, steps) && n <= |steps| && PcOf(states[n], r).Passed?
    ensures b < n && Rests(steps, r, b + 1, n)
    ensures AskedAt(states, steps, b, r, PcOf(states[n], r).i, PcOf(states[n], r).ip)
  {
    assert n > 0;
    assert StepAt(p, states, steps, n - 1);
    if Moves(steps[n - 1], r) {
      b := n - 1;
    } else {
      b := PassedHasAsked(p, states, steps, n - 1, r);
    }
  }

  /** From step a on the cache of process i holds a ban of `ip`, at every instant at which it is asked. */
  ghost predicate HeldSince(states: seq<Sys>, steps: seq<Step>, i: nat, ip: string, a: nat, n: nat)
    requires n <= |steps| < |states|
  {
    forall m :: a <= m < n && steps[m].Pass? && steps[m].i == i && steps[m].ip == ip ==>
      Banned(CacheOf(states[m], i), ip, steps[m].now)
  }

  /**
   * During a cooldown a request of the process can be counted, and ban again, if and only if it had asked
   * before the ban was in that process's cache. (Whenever the cache loses the ban, the cooldown starts anew.)
   */
  lemma CountsDuringCooldownExactlyWhen(p: Policy, states: seq<Sys>, steps: seq<Step>, i: nat, ip: string,
                                        a: nat, n: nat, r: nat)
    requires Run(p, states, steps) && a <= n <= |steps| && HeldSince(states, steps, i, ip, a, n)
    ensures PcOf(states[n], r) == Passed(i, ip) <==>
            exists b :: 0 <= b < a && AskedAt(states, steps, b, r, i, ip) && Rests(steps, r, b + 1, n)
  {
    if PcOf(states[n], r) == Passed(i, ip) {
      var b := PassedHasAsked(p, states, steps, n, r);
      assert b < a;
    }
    forall b | 0 <= b < a && AskedAt(states, steps, b, r, i, ip) && Rests(steps, r, b + 1, n)
      ensures PcOf(states[n], r) == Passed(i, ip)
    {
      assert StepAt(p, states, steps, b);
      RestingRequestStays(p, states, steps, r, b + 1, n);
    }
  }

  /** A request that has asked can always go on to be counted. */
  lemma PassedCanBeCounted(p: Policy, s: Sys, r: nat) returns (s': Sys)
    requires PcOf(s, r).Passed?
    ensures Next(p, s, Increment(r), s')
    ensures CountOf(s'.history, PcOf(s, r).ip) == CountOf(s.history, PcOf(s, r).ip) + 1
  {
    var pc := PcOf(s, r);
    var h := Incremented(s.history, pc.ip);
    s' := s.(history := h, requests := s.requests[r := Counted(pc.i, pc.ip, h[pc.ip])]);
  }

  /**
   * So two overlapping failures of one IP in one process count twice: both ask before either bans, and the
   * second is counted while the first one's ban is in cache and table.
   */
  lemma OverlappingFailuresCountTwice(p: Policy, ip: string) returns (states: seq<Sys>, steps: seq<Step>)
    requires p.escalateAt > 1 && p.banDuration > 0 && ip != ""
    ensures Run(p, states, steps) && |steps| == 6
    ensures steps[4] == Ban(0, 0, 1) && Banned(CacheOf(states[5], 0), ip, 1) && Banned(states[5].table, ip, 1)
    ensures CountOf(states[5].history, ip) == 1
    ensures steps[5] == Increment(1) && CountOf(states[6].history, ip) == 2
  {
    var until: Time := 1 + p.banDuration;
    var one: Counts, none, ban: Bans := map[ip := 1], map[], map[ip := until];
    var s0 := Sys(map[], none, map[], map[], []);
    var s1 := s0.(requests := map[0 := Passed(0, ip)]);
    var s2 := s0.(requests := map[0 := Passed(0, ip), 1 := Passed(0, ip)]);
    var s3 := s2.(history := one, requests := s2.requests[0 := Counted(0, ip, 1)]);
    var s4 := s3.(requests := s3.requests[0 := Fetched(0, ip, 1, 1)]);
    var s5 := Sys(one, ban, map[0 := ban], s4.requests[0 := Idle], [Issue(ip, 1, 1, until)]);
    assert Next(p, s0, Pass(0, 0, ip, 1), s1) && Next(p, s1, Pass(1, 0, ip, 1), s2);
    assert Next(p, s2, Increment(0), s3) && Next(p, s3, Fetch(0), s4);
    assert Extended(none, ip, until) == ban && BanUntil(p, 1, 0, 1) == until;
    assert Next(p, s4, Ban(0, 0, 1), s5);
    var s6 := PassedCanBeCounted(p, s5, 1);
    states, steps := [s0], [];
    states, steps := RunContinuesTwice(p, states, steps, Pass(0, 0, ip, 1), s1, Pass(1, 0, ip, 1), s2);
    states, steps := RunContinuesTwice(p, states, steps, Increment(0), s3, Fetch(0), s4);
    states, steps := RunContinuesTwice(p, states, steps, Ban(0, 0, 1), s5, Increment(1), s6);
  }

  lemma RunContinues(p: Policy, states: seq<Sys>, steps: seq<Step>, step: Step, s': Sys)
    requires Run(p, states, steps) && Next(p, states[|steps|], step, s') && !step.AdminReset?
    ensures Run(p, states + [s'], steps + [step])
  {
    var states', steps' := states + [s'], steps + [step];
    forall n | 0 <= n < |steps'| ensures StepAt(p, states', steps', n) {
      if n < |steps| {
        assert StepAt(p, states, steps, n);
      }
    }
  }

  lemma RunContinuesTwice(p: Policy, states: seq<Sys>, steps: seq<Step>, a: Step, s1: Sys, b: Step, s2: Sys)
    returns (states': seq<Sys>, steps': seq<Step>)
    requires Run(p, states, steps) && Next(p, states[|steps|], a, s1) && Next(p, s1, b, s2)
    requires !a.AdminReset? && !b.AdminReset?
    ensures Run(p, states', steps') && states' == states + [s1, s2] && steps' == steps + [a, b]
  {
    RunContinues(p, states, steps, a, s1);
    RunContinues(p, states + [s1], steps + [a], b, s2);
    states', steps' := states + [s1] + [s2], steps + [a] + [b];
  }

  // ----- one process at a time -----

  /** At most one request is inside recordIPFailure. */
  ghost predicate Serial(s: Sys) {
    forall q, r :: q in s.requests && r in s.requests && !s.requests[q].Idle? && !s.requests[r].Idle? ==> q == r
  }

  /** With one request at a time a ban reads back its own ordinal, and ordinals count up from one. */
  ghost predicate SerialOk(s: Sys) {
    && (forall r :: r in s.requests && (s.requests[r].Counted? || s.requests[r].Fetched?) ==>
          && s.requests[r].ordinal == CountOf(s.history, s.requests[r].ip)
          && (s.requests[r].Fetched? ==> s.requests[r].count == s.requests[r].ordinal))
    && (forall i :: 0 <= i < |s.issued| ==> SerialIssue(s.issued, i))
  }

  ghost predicate SerialIssue(issued: seq<Issue>, i: nat)
    requires i < |issued|
  {
    issued[i].count == issued[i].ordinal == IssuedTo(issued[..i], issued[i].ip) + 1
  }

  /** The one request inside is the only one of its IP that is in the history but not issued. */
  lemma AloneInFlight(s: Sys, r: nat)
    requires Serial(s) && r in s.requests && (s.requests[r].Counted? || s.requests[r].Fetched?)
    ensures InFlight(s, s.requests[r].ip) == {r}
  {
  }

  lemma SerialBanStep(p: Policy, s: Sys, step: Step, s': Sys)
    requires Inv(p, s) && SerialOk(s) && Serial(s) && Next(p, s, step, s') && step.Ban?
    ensures |s'.issued| == |s.issued| + 1 && SerialIssue(s'.issued, |s.issued|)
  {
    assert s'.issued[..|s.issued|] == s.issued;
    AloneInFlight(s, step.r);
  }

  lemma SerialStep(p: Policy, s: Sys, step: Step, s': Sys)
    requires Inv(p, s) && SerialOk(s) && Serial(s) && Next(p, s, step, s') && Serial(s') && !step.AdminReset?
    ensures SerialOk(s')
  {
    forall i | 0 <= i < |s'.issued| ensures SerialIssue(s'.issued, i) {
      if i < |s.issued| {
        assert SerialIssue(s.issued, i);
        assert s'.issued[..i] == s.issued[..i];
      } else {
        SerialBanStep(p, s, step, s');
      }
    }
  }

  /** A run in which no two requests are ever inside recordIPFailure together. */
  ghost predicate SerialUpTo(states: seq<Sys>, n: nat) {
    n < |states| && forall m :: 0 <= m <= n ==> Serial(states[m])
  }

  lemma {:induction false} SerialRun(p: Policy, states: seq<Sys>, steps: seq<Step>, n: nat)
    requires p.escalateAt > 0 && Run(p, states, steps) && n <= |steps| && SerialUpTo(states, n)
    ensures SerialOk(states[n])
  {
    if n > 0 {
      SerialRun(p, states, steps, n - 1);
      RunKeepsInv(p, states, steps, n - 1);
      assert StepAt(p, states, steps, n - 1);
      SerialStep(p, states[n - 1], steps[n - 1], states[n]);
    }
  }

  /**
   * On one process the k-th ban of an IP is chosen by the ordinal k alone: it escalates exactly
   * when k has reached the threshold.
   */
  lemma SerialBansEscalateExactly(p: Policy, states: seq<Sys>, steps: seq<Step>, n: nat, r: nat, remaining: Time,
                                  now: Time)
    requires p.escalateAt > 0 && Run(p, states, steps) && n < |steps| && SerialUpTo(states, n)
    requires steps[n] == Ban(r, remaining, now)
    requires now + p.banDuration <= PERMANENT_AFTER
    ensures PcOf(states[n], r).Fetched? && |states[n + 1].issued| == |states[n].issued| + 1
    ensures var k := IssuedTo(states[n].issued, PcOf(states[n], r).ip) + 1;
            IsPermanent(states[n + 1].issued[|states[n].issued|].until) <==> k >= p.escalateAt
  {
    assert StepAt(p, states, steps, n);
    RunKeepsInv(p, states, steps, n);
    SerialRun(p, states, steps, n);
    var pc := PcOf(states[n], r);
    assert InFlight(states[n], pc.ip) == {r};
    if pc.count >= p.escalateAt {
      EscalatedIsPermanent(p, pc.count, remaining, now);
    }
  }
}
