/**
 * The OIDC state replay set (portal/ratelimit.go) and the session cookie whose lifetime it has to
 * outlast (portal/session.go).
 */
module UsedStates {
  import opened Common
  import opened ExpiringStore

  const SESSION_TTL: nat := 900 * SECOND

  // ----- the session cookie -----

  /** newSession stores whole seconds. */
  function CookieExp(created: Time): nat {
    Unix(created + SESSION_TTL)
  }

  /** readSessionCookie */
  predicate CookieVerifies(created: Time, now: Time) {
    Unix(now) <= CookieExp(created)
  }

  // ----- the set -----

  predicate Replayed(states: Expiries, state: string, now: Time) {
    state in states && now < states[state]
  }

  /** The effect of an accepted markUsed; `dropped` are live entries that went for capacity. */
  ghost predicate Marked(ttl: nat, states: Expiries, state: string, now: Time, dropped: set<string>,
                         states': Expiries) {
    exists kept :: MadeRoom(states, now, kept) && dropped == Dropped(states, now, kept)
      && states' == Restrict(states, kept)[state := now + ttl]
  }

  function Restrict(states: Expiries, kept: set<string>): Expiries {
    map k | k in states && k in kept :: states[k]
  }

  class StateSet {
    var states: Expiries
    const ttl: nat

    constructor (ttl: nat)
      ensures states == map[] && this.ttl == ttl
    {
      states := map[];
      this.ttl := ttl;
    }

    method MarkUsed(state: string, now: Time) returns (ok: bool, ghost dropped: set<string>)
      modifies this
      ensures ok <==> state != "" && !Replayed(old(states), state, now)
      ensures !ok ==> states == old(states)
      ensures ok ==> Marked(ttl, old(states), state, now, dropped, states)
    {
      dropped := {};
      if state == "" {
        return false, {};
      }
      if state in states && now < states[state] {
        return false, {};
      }
      var kept := MakeRoom(states, now);
      dropped := Dropped(states, now, kept);
      states := Restrict(states, kept)[state := now + ttl];
      ok := true;
    }

    method Collect(now: Time)
      modifies this
      ensures states == Live(old(states), now)
    {
      states := DropExpired(states, now);
    }
  }

  // ----- runs -----

  datatype Op =
    | Mark(state: string, now: Time, ok: bool, dropped: set<string>)
    | Collect(now: Time)

  ghost predicate Next(ttl: nat, states: Expiries, op: Op, states': Expiries) {
    match op
    case Mark(state, now, ok, dropped) =>
      && (ok <==> state != "" && !Replayed(states, state, now))
      && if ok then Marked(ttl, states, state, now, dropped, states') else states' == states && dropped == {}
    case Collect(now) => states' == Live(states, now)
  }

  ghost predicate Run(ttl: nat, sets: seq<Expiries>, ops: seq<Op>) {
    && |sets| == |ops| + 1 && sets[0] == map[]
    && (forall i :: 0 <= i < |ops| ==> Next(ttl, sets[i], ops[i], sets[i + 1]))
    && (forall i, j :: 0 <= i < j < |ops| ==> ops[i].now <= ops[j].now)
  }

  lemma MarkStaysWithinCap(ttl: nat, states: Expiries, state: string, now: Time, dropped: set<string>,
                           states': Expiries)
    requires |states| <= CAP && Marked(ttl, states, state, now, dropped, states')
    ensures |states'| <= CAP
  {
    var kept :| MadeRoom(states, now, kept) && dropped == Dropped(states, now, kept)
      && states' == Restrict(states, kept)[state := now + ttl];
    InsertFits(states, now, kept, state);
    assert states'.Keys == kept + {state};
  }

  lemma {:induction false} SetStaysWithinCap(ttl: nat, sets: seq<Expiries>, ops: seq<Op>, n: nat)
    requires Run(ttl, sets, ops) && n <= |ops|
    ensures |sets[n]| <= 50_000
  {
    if n > 0 {
      SetStaysWithinCap(ttl, sets, ops, n - 1);
      var op := ops[n - 1];
      if op.Mark? && op.ok {
        MarkStaysWithinCap(ttl, sets[n - 1], op.state, op.now, op.dropped, sets[n]);
      } else {
        SubsetSize(sets[n].Keys, sets[n - 1].Keys);
      }
    }
  }

  /** A state marked at `m` is still refused at `now`. */
  predicate Remembers(ttl: nat, states: Expiries, state: string, m: Time, now: Time) {
    now < m + ttl ==> state in states && m + ttl <= states[state]
  }

  lemma StepRemembers(ttl: nat, states: Expiries, op: Op, states': Expiries, state: string, m: Time)
    requires Next(ttl, states, op, states') && m <= op.now && Remembers(ttl, states, state, m, op.now)
    requires op.Mark? ==> state !in op.dropped
    ensures forall now :: op.now <= now ==> Remembers(ttl, states', state, m, now)
  {
    if op.Mark? && op.ok && op.now < m + ttl {
      var kept :| MadeRoom(states, op.now, kept) && op.dropped == Dropped(states, op.now, kept)
        && states' == Restrict(states, kept)[op.state := op.now + ttl];
      LiveEntryStays(states, op.now, kept, state);
    }
  }

  lemma {:induction false} MarkIsRemembered(ttl: nat, sets: seq<Expiries>, ops: seq<Op>, i: nat, n: nat)
    requires Run(ttl, sets, ops) && i < n <= |ops| && ops[i].Mark? && ops[i].ok
    requires forall j :: i < j < n && ops[j].Mark? ==> ops[i].state !in ops[j].dropped
    ensures forall now :: ops[n - 1].now <= now ==> Remembers(ttl, sets[n], ops[i].state, ops[i].now, now)
  {
    if n > i + 1 {
      MarkIsRemembered(ttl, sets, ops, i, n - 1);
      StepRemembers(ttl, sets[n - 1], ops[n - 1], sets[n], ops[i].state, ops[i].now);
    } else {
      assert Next(ttl, sets[i], ops[i], sets[i + 1]);
    }
  }

  /** Unless it is dropped for capacity, a state is accepted once per `ttl` and no more. */
  lemma AcceptedOncePerTtl(ttl: nat, sets: seq<Expiries>, ops: seq<Op>, i: nat, j: nat)
    requires Run(ttl, sets, ops) && i < j < |ops| && ops[i].Mark? && ops[j].Mark? && ops[i].state == ops[j].state
    requires ops[i].ok && ops[j].now < ops[i].now + ttl
    requires forall k :: i < k < j && ops[k].Mark? ==> ops[i].state !in ops[k].dropped
    ensures !ops[j].ok
  {
    MarkIsRemembered(ttl, sets, ops, i, j);
    assert Remembers(ttl, sets[j], ops[i].state, ops[i].now, ops[j].now);
    assert Next(ttl, sets[j], ops[j], sets[j + 1]);
  }

  // ----- against the cookie -----

  /**
   * The callback reads the clock twice: once to verify the cookie and, at most `lag` later, once to mark
   * the state it carries.
   */
  predicate Presented(created: Time, lag: nat, read: Time, now: Time) {
    CookieVerifies(created, read) && read <= now <= read + lag
  }

  /** The second in which the session was created has been over for at least `lag`. */
  predicate LateEnough(created: Time, lag: nat, marked: Time) {
    (Unix(created) + 1) * SECOND + lag <= marked
  }

  /** The cookie outlives its session's creation second by exactly the session's time to live. */
  lemma CookieVerifiesUntil(created: Time, now: Time)
    ensures CookieVerifies(created, now) <==> now < (Unix(created) + 1) * SECOND + 15 * 60 * SECOND
  {
    assert Unix(created + SESSION_TTL) == Unix(created) + 900;
  }

  /** The entry outlasts every callback its cookie can reach exactly when it was made late enough. */
  lemma EntryOutlastsCookieExactlyWhen(created: Time, marked: Time, lag: nat)
    ensures (forall read: Time, now: Time :: Presented(created, lag, read, now) ==> now < marked + SESSION_TTL)
            <==> LateEnough(created, lag, marked)
  {
    forall read: Time ensures CookieVerifies(created, read) <==> read < (Unix(created) + 1) * SECOND + SESSION_TTL {
      CookieVerifiesUntil(created, read);
    }
    var last := (Unix(created) + 1) * SECOND + SESSION_TTL - 1;
    assert Presented(created, lag, last, last + lag);
  }

  /**
   * A consumed state is never accepted again by the same process from a cookie carrying it, if it was
   * consumed late enough and was not dropped for capacity in between.
   */
  lemma ConsumedStateIsNotReplayed(sets: seq<Expiries>, ops: seq<Op>, i: nat, j: nat, created: Time, lag: nat,
                                   read: Time)
    requires Run(SESSION_TTL, sets, ops) && i < j < |ops|
    requires ops[i].Mark? && ops[j].Mark? && ops[i].state == ops[j].state
    requires ops[i].ok && LateEnough(created, lag, ops[i].now)
    requires Presented(created, lag, read, ops[j].now)
    requires forall k :: i < k < j && ops[k].Mark? ==> ops[i].state !in ops[k].dropped
    ensures !ops[j].ok
  {
    EntryOutlastsCookieExactlyWhen(created, ops[i].now, lag);
    AcceptedOncePerTtl(SESSION_TTL, sets, ops, i, j);
  }

  /** The condition is exact: consumed any earlier, a state is accepted a second time from a cookie that verifies. */
  lemma EarlyStateCanBeReplayed(state: string, created: Time, marked: Time, lag: nat)
    returns (sets: seq<Expiries>, ops: seq<Op>, read: Time)
    requires state != "" && !LateEnough(created, lag, marked)
    ensures Run(SESSION_TTL, sets, ops) && |ops| == 2 && ops[0] == Mark(state, marked, true, {})
    ensures ops[1].Mark? && ops[1].state == state && ops[1].ok && Presented(created, lag, read, ops[1].now)
  {
    read := (Unix(created) + 1) * SECOND + SESSION_TTL - 1;
    CookieVerifiesUntil(created, read);
    var again := read + lag;
    var one: Expiries, two: Expiries := map[state := marked + SESSION_TTL], map[state := again + SESSION_TTL];
    ops := [Mark(state, marked, true, {}), Mark(state, again, true, {})];
    sets := [map[], one, two];
    FirstMark(state, marked);
    assert Marked(SESSION_TTL, one, state, again, {}, two) by {
      assert MadeRoom(one, again, one.Keys);
      assert Dropped(one, again, one.Keys) == {};
      assert two == Restrict(one, one.Keys)[state := again + SESSION_TTL];
    }
  }

  lemma FirstMark(state: string, now: Time)
    ensures Marked(SESSION_TTL, map[], state, now, {}, map[state := now + SESSION_TTL])
  {
    assert MadeRoom(map[], now, {});
    assert Dropped(map[], now, {}) == {};
    assert Restrict(map[], {}) == map[];
  }

  /** Waiting one second and the lag is always late enough ... */
  lemma OneSecondAndLagIsLateEnough(created: Time, lag: nat, marked: Time)
    requires created + SECOND + lag <= marked
    ensures LateEnough(created, lag, marked)
  {
    assert Unix(created) * SECOND <= created;
  }

  /** ... and one second alone is not, by one nanosecond between the two readings. */
  lemma OneSecondAloneIsTooEarly(state: string) returns (sets: seq<Expiries>, ops: seq<Op>, read: Time)
    requires state != ""
    ensures Run(SESSION_TTL, sets, ops) && |ops| == 2 && ops[0] == Mark(state, SECOND, true, {})
    ensures ops[1].Mark? && ops[1].state == state && ops[1].ok && Presented(0, 1, read, ops[1].now)
  {
    sets, ops, read := EarlyStateCanBeReplayed(state, 0, SECOND, 1);
  }

  // ----- several processes -----

  /** One process: its set's run and, for each mark, the instant at which the cookie was verified. */
  datatype Process = Process(sets: seq<Expiries>, ops: seq<Op>, verified: seq<Time>)

  predicate Accepts(op: Op, state: string) {
    op.Mark? && op.state == state && op.ok
  }

  function Acceptances(ops: seq<Op>, state: string): nat {
    if ops == [] then 0
    else Acceptances(ops[..|ops| - 1], state) + if Accepts(ops[|ops| - 1], state) then 1 else 0
  }

  /** The process sees `state` only in cookies of its session, never too early, and never drops it for capacity. */
  ghost predicate Serves(p: Process, state: string, created: Time, lag: nat) {
    && Run(SESSION_TTL, p.sets, p.ops) && |p.verified| == |p.ops|
    && (forall i :: 0 <= i < |p.ops| && Accepts(p.ops[i], state) ==>
          Presented(created, lag, p.verified[i], p.ops[i].now) && LateEnough(created, lag, p.ops[i].now))
    && (forall i :: 0 <= i < |p.ops| && p.ops[i].Mark? ==> state !in p.ops[i].dropped)
  }

  lemma {:induction false} SomeAcceptance(ops: seq<Op>, state: string) returns (i: nat)
    requires Acceptances(ops, state) > 0
    ensures i < |ops| && Accepts(ops[i], state)
  {
    if Accepts(ops[|ops| - 1], state) {
      i := |ops| - 1;
    } else {
      i := SomeAcceptance(ops[..|ops| - 1], state);
    }
  }

  lemma {:induction false} ProcessAcceptsOnce(p: Process, state: string, created: Time, lag: nat, n: nat)
    requires Serves(p, state, created, lag) && n <= |p.ops|
    ensures Acceptances(p.ops[..n], state) <= 1
  {
    if n > 0 {
      ProcessAcceptsOnce(p, state, created, lag, n - 1);
      assert p.ops[..n][..n - 1] == p.ops[..n - 1];
      if Accepts(p.ops[n - 1], state) && Acceptances(p.ops[..n - 1], state) > 0 {
        var i := SomeAcceptance(p.ops[..n - 1], state);
        ConsumedStateIsNotReplayed(p.sets, p.ops, i, n - 1, created, lag, p.verified[n - 1]);
        assert false;
      }
    }
  }

  function TotalAcceptances(fleet: seq<Process>, state: string): nat {
    if fleet == [] then 0
    else TotalAcceptances(fleet[..|fleet| - 1], state) + Acceptances(fleet[|fleet| - 1].ops, state)
  }

  /** The set is per process, so over N processes a state is accepted at most N times ... */
  lemma {:induction false} FleetAcceptsOncePerProcess(fleet: seq<Process>, state: string, created: Time, lag: nat)
    requires forall p :: p in fleet ==> Serves(p, state, created, lag)
    ensures TotalAcceptances(fleet, state) <= |fleet|
  {
    if fleet != [] {
      var last := fleet[|fleet| - 1];
      FleetAcceptsOncePerProcess(fleet[..|fleet| - 1], state, created, lag);
      ProcessAcceptsOnce(last, state, created, lag, |last.ops|);
      assert last.ops[..|last.ops|] == last.ops;
    }
  }

  /** ... and N times it can be. */
  lemma {:induction false} FleetMayAcceptOncePerProcess(n: nat, state: string, created: Time, lag: nat)
    returns (fleet: seq<Process>)
    requires state != ""
    ensures |fleet| == n && forall p :: p in fleet ==> Serves(p, state, created, lag)
    ensures TotalAcceptances(fleet, state) == n
  {
    if n == 0 {
      fleet := [];
    } else {
      var rest := FleetMayAcceptOncePerProcess(n - 1, state, created, lag);
      var p := OneMark(state, created, lag);
      fleet := rest + [p];
      assert fleet[..n - 1] == rest;
    }
  }

  lemma OneMark(state: string, created: Time, lag: nat) returns (p: Process)
    requires state != ""
    ensures Serves(p, state, created, lag) && Acceptances(p.ops, state) == 1
  {
    var read := (Unix(created) + 1) * SECOND;
    CookieVerifiesUntil(created, read);
    FirstMark(state, read + lag);
    var op := Mark(state, read + lag, true, {});
    p := Process([map[], map[state := read + lag + SESSION_TTL]], [op], [read]);
    assert Acceptances([op][..0], state) == 0;
  }

  // ----- a state that should be accepted is -----

  /** Every entry of the set stems from an accepted mark. */
  lemma {:induction false} EntryWasMarked(ttl: nat, sets: seq<Expiries>, ops: seq<Op>, n: nat, state: string)
    returns (i: nat)
    requires Run(ttl, sets, ops) && n <= |ops| && state in sets[n]
    ensures i < n && Accepts(ops[i], state) && sets[n][state] == ops[i].now + ttl
  {
    assert n > 0 && Next(ttl, sets[n - 1], ops[n - 1], sets[n]);
    if Accepts(ops[n - 1], state) {
      i := n - 1;
    } else {
      i := EntryWasMarked(ttl, sets, ops, n - 1, state);
    }
  }

  /** A nonblank state that was not accepted within the last ttl is accepted. */
  lemma UnusedStateIsAccepted(ttl: nat, sets: seq<Expiries>, ops: seq<Op>, j: nat)
    requires Run(ttl, sets, ops) && j < |ops| && ops[j].Mark? && ops[j].state != ""
    requires forall i :: 0 <= i < j && Accepts(ops[i], ops[j].state) ==> ops[i].now + ttl <= ops[j].now
    ensures ops[j].ok
  {
    assert Next(ttl, sets[j], ops[j], sets[j + 1]);
    if ops[j].state in sets[j] {
      var i := EntryWasMarked(ttl, sets, ops, j, ops[j].state);
    }
  }

}
