/**
 * From failures to cooldowns to permanent bans: recordIPFailure and clearSuccessfulAuthState
 * (portal/main.go) over the failure counter, the ban list and the shared ban history
 * (portal/store_policy.go).
 */
module Escalation {
  import opened Common
  import FailCounter
  import opened IpBans

  /** 2125-01-01 and 2100-01-01, both UTC. */
  const PERMANENT_UNTIL: Time := 775_775 * 86_400 * SECOND
  const PERMANENT_AFTER: Time := 766_644 * 86_400 * SECOND

  predicate IsPermanent(t: Time) {
    t > PERMANENT_AFTER
  }

  /** The ban_history table: cooldowns per IP. */
  type Counts = map<string, nat>

  function CountOf(h: Counts, ip: string): nat {
    if ip in h then h[ip] else 0
  }

  /** INSERT ... ON CONFLICT DO UPDATE SET count = count + 1 */
  function Incremented(h: Counts, ip: string): Counts {
    h[ip := CountOf(h, ip) + 1]
  }

  class BanHistory {
    var counts: Counts

    constructor ()
      ensures counts == map[]
    {
      counts := map[];
    }

    method Increment(ip: string) returns (total: nat)
      modifies this
      ensures ip == "" ==> total == 0 && counts == old(counts)
      ensures ip != "" ==> counts == Incremented(old(counts), ip) && total == CountOf(counts, ip)
    {
      if ip == "" {
        return 0;
      }
      counts := Incremented(counts, ip);
      total := Get(ip);
    }

    method Get(ip: string) returns (n: nat)
      ensures ip == "" ==> n == 0
      ensures ip != "" ==> n == CountOf(counts, ip)
    {
      if ip == "" || ip !in counts {
        return 0;
      }
      n := counts[ip];
    }

    method Reset(ip: string)
      modifies this
      ensures counts == if ip == "" then old(counts) else old(counts) - {ip}
    {
      if ip != "" {
        counts := counts - {ip};
      }
    }
  }

  datatype Policy = Policy(failsLimit: int, failsWindow: int, banDuration: nat, escalateAt: int)

  /** The clock readings of one recordIPFailure call, in order. */
  datatype Readings = Readings(evict: Time, record: Time, count: Time, age: Time, query: Time, stamp: Time, ask: Time,
                               remaining: Time, ban: Time)

  /** The expiry a ban gets: the permanent marker once the history reaches the threshold. */
  function BanUntil(p: Policy, count: nat, remaining: Time, now: Time): int {
    if p.escalateAt > 0 && count >= p.escalateAt then now + (PERMANENT_UNTIL - remaining) else now + p.banDuration
  }

  /** Escalation disabled means the history is not kept. */
  function CountsAfter(p: Policy, h: Counts, ip: string): Counts {
    if p.escalateAt > 0 then Incremented(h, ip) else h
  }

  function IssuedUntil(p: Policy, h: Counts, ip: string, r: Readings): int {
    BanUntil(p, CountOf(h, ip), r.remaining, r.ban)
  }

  datatype Outcome = BelowLimit | AlreadyBanned | Cooldown

  /** What one process knows and shares: its failure counter and ban cache, the ban table, the history. */
  datatype Proc = Proc(fails: FailCounter.Entries, cache: Bans, refreshed: Time, rows: Bans, counts: Counts)

  /**
   * The effect of one failed request. It is always recorded; below the limit nothing else happens.
   * Otherwise the cache - reloaded first if stale - is asked, and a cooldown is issued if and only if
   * it does not hold an unexpired ban.
   */
  ghost predicate Failed(p: Policy, w: int, s: Proc, ip: string, r: Readings, o: Outcome, s': Proc) {
    exists n: nat, m: Proc ::
      && Tallied(p, w, s, ip, r, n, m)
      && (o == BelowLimit <==> n < p.failsLimit)
      && if o == BelowLimit then s' == m else s'.fails == m.fails && AskedAndAnswered(p, m, ip, r, o, s')
  }

  /** The failure is recorded, nothing else moves, and n counts the IP's failures in the window. */
  ghost predicate Tallied(p: Policy, w: int, s: Proc, ip: string, r: Readings, n: nat, m: Proc) {
    && (exists dropped :: FailCounter.Recorded(w, s.fails, ip, r.evict, r.record, dropped, m.fails))
    && m == s.(fails := m.fails)
    && n == FailCounter.CountAfter(FailCounter.Times(m.fails, ip), r.count - p.failsWindow)
  }

  ghost predicate AskedAndAnswered(p: Policy, s: Proc, ip: string, r: Readings, o: Outcome, s': Proc) {
    exists view :: Consults(s.rows, s.cache, s.refreshed, r.age, r.query, view) && Answered(p, s, ip, r, view, o, s')
  }

  ghost predicate Answered(p: Policy, s: Proc, ip: string, r: Readings, view: Bans, o: Outcome, s': Proc) {
    && (o == AlreadyBanned <==> Banned(view, ip, r.ask))
    && s'.refreshed == (if Stale(s.refreshed, r.age) then r.stamp else s.refreshed)
    && if o == Cooldown && ip != "" then
         Issued(p, s, ip, r, Forgotten(view, ip, r.ask), s')
       else
         s'.counts == s.counts && s'.rows == s.rows && s'.cache == Forgotten(view, ip, r.ask)
  }

  /** The history grows by one, and table and cache are extended to the expiry the new count calls for. */
  ghost predicate Issued(p: Policy, s: Proc, ip: string, r: Readings, cache: Bans, s': Proc) {
    var until := IssuedUntil(p, s'.counts, ip, r);
    && s'.counts == CountsAfter(p, s.counts, ip)
    && until >= 0
    && s'.rows == Extended(s.rows, ip, until)
    && s'.cache == Extended(cache, ip, until)
  }

  lemma BelowIsFailed(p: Policy, w: int, s: Proc, ip: string, r: Readings, n: nat, m: Proc)
    requires Tallied(p, w, s, ip, r, n, m) && n < p.failsLimit
    ensures Failed(p, w, s, ip, r, BelowLimit, m)
  {
  }

  lemma AnsweredIsFailed(p: Policy, w: int, s: Proc, m: Proc, ip: string, r: Readings, n: nat, o: Outcome, s': Proc)
    requires Tallied(p, w, s, ip, r, n, m) && n >= p.failsLimit
    requires o != BelowLimit && s'.fails == m.fails && AskedAndAnswered(p, m, ip, r, o, s')
    ensures Failed(p, w, s, ip, r, o, s')
  {
  }

  class Limiter {
    const fails: FailCounter.Counter
    const bans: BanList
    const history: BanHistory

    constructor (fails: FailCounter.Counter, bans: BanList, history: BanHistory)
      ensures this.fails == fails && this.bans == bans && this.history == history
    {
      this.fails := fails;
      this.bans := bans;
      this.history := history;
    }

    ghost function State(): Proc
      reads this, fails, bans, bans.table, history
    {
      Proc(fails.entries, bans.cache, bans.refreshed, bans.table.rows, history.counts)
    }

    /** One failed request from `ip`. */
    method RecordIPFailure(p: Policy, ip: string, r: Readings) returns (o: Outcome)
      requires r.remaining <= r.ban
      modifies fails, bans, bans.table, history
      ensures Failed(p, fails.maxWindow, old(State()), ip, r, o, State())
    {
      ghost var s := State();
      var n := Tally(p, ip, r);
      ghost var m := State();
      if n < p.failsLimit {
        BelowIsFailed(p, fails.maxWindow, s, ip, r, n, m);
        return BelowLimit;
      }
      o := CoolDown(p, ip, r);
      AnsweredIsFailed(p, fails.maxWindow, s, m, ip, r, n, o, State());
    }

    /** Records the failure and counts the recent ones. */
    method Tally(p: Policy, ip: string, r: Readings) returns (n: nat)
      modifies fails
      ensures Tallied(p, fails.maxWindow, old(State()), ip, r, n, State())
    {
      ghost var e := fails.entries;
      ghost var dropped := fails.Record(ip, r.evict, r.record);
      ghost var e' := fails.entries;
      n := fails.CountIn(ip, p.failsWindow, r.count);
      assert exists dropped :: FailCounter.Recorded(fails.maxWindow, e, ip, r.evict, r.record, dropped, e');
    }

    /** The part from the limit on: ask whether the IP is cooling down, and issue a cooldown if it is not. */
    method CoolDown(p: Policy, ip: string, r: Readings) returns (o: Outcome)
      requires r.remaining <= r.ban
      modifies bans, bans.table, history
      ensures o != BelowLimit && State().fails == old(State()).fails
      ensures AskedAndAnswered(p, old(State()), ip, r, o, State())
    {
      ghost var s := State();
      var exp := bans.ExpiryOf(ip, r.age, r.query, r.stamp, r.ask);
      ghost var view :| Consults(s.rows, s.cache, s.refreshed, r.age, r.query, view)
        && exp == (if Banned(view, ip, r.ask) then Some(view[ip]) else None)
        && bans.cache == Forgotten(view, ip, r.ask);
      if exp.Some? {
        assert Answered(p, s, ip, r, view, AlreadyBanned, State());
        return AlreadyBanned;
      }
      IssueCooldown(p, ip, r);
      assert Answered(p, s, ip, r, view, Cooldown, State());
      o := Cooldown;
    }

    /** The history grows by one, and the ban is the permanent one exactly when the new count calls for it. */
    method IssueCooldown(p: Policy, ip: string, r: Readings)
      requires r.remaining <= r.ban
      modifies bans`cache, bans.table, history
      ensures ip == "" ==> State() == old(State())
      ensures ip != "" ==> Issued(p, old(State()), ip, r, old(bans.cache), State())
    {
      if p.escalateAt <= 0 {
        bans.Ban(ip, p.banDuration, r.ban);
        return;
      }
      var banCount := history.Increment(ip);
      if banCount >= p.escalateAt {
        bans.Ban(ip, PERMANENT_UNTIL - r.remaining, r.ban);
      } else {
        bans.Ban(ip, p.banDuration, r.ban);
      }
    }

    /** A successful sign-in clears the temporary state, even a permanent ban, but never the history. */
    method ClearSuccessfulAuth(ips: seq<string>)
      modifies fails, bans`cache, bans.table
      ensures fails.entries == old(fails.entries) - SetOf(ips)
      ensures bans.table.rows == old(bans.table.rows) - SetOf(ips) && bans.cache == old(bans.cache) - SetOf(ips)
    {
      var i := 0;
      while i < |ips|
        invariant 0 <= i <= |ips|
        invariant fails.entries == old(fails.entries) - SetOf(ips[..i])
        invariant bans.table.rows == old(bans.table.rows) - SetOf(ips[..i])
        invariant bans.cache == old(bans.cache) - SetOf(ips[..i])
      {
        fails.Reset(ips[i]);
        var _ := bans.Unban(ips[i]);
        assert SetOf(ips[..i + 1]) == SetOf(ips[..i]) + {ips[i]};
        i := i + 1;
      }
      assert ips[..i] == ips;
    }
  }

  /** requestIPKeys: the addresses one request is accounted to, trimmed, without blanks or repeats. */
  method UniqueNonEmpty(values: seq<string>) returns (out: seq<string>)
    ensures forall v :: v in out <==> v != "" && exists i :: 0 <= i < |values| && TrimSpace(values[i]) == v
    ensures forall i, j :: 0 <= i < j < |out| ==> out[i] != out[j]
  {
    out := [];
    var n := 0;
    while n < |values|
      invariant 0 <= n <= |values|
      invariant forall v :: v in out <==> v != "" && exists i :: 0 <= i < n && TrimSpace(values[i]) == v
      invariant forall i, j :: 0 <= i < j < |out| ==> out[i] != out[j]
    {
      var v := TrimSpace(values[n]);
      if v != "" && v !in out {
        out := out + [v];
      }
      n := n + 1;
    }
  }

  // ----- failures during a cooldown -----

  /** What happens around one process; Elsewhere is what the other processes make of the shared tables. */
  datatype Event =
    | Failure(ip: string, r: Readings, o: Outcome)
    | SignsIn(ips: set<string>)
    | Reload(query: Time, stamp: Time)
    | Elsewhere(rows: Bans, counts: Counts)

  ghost predicate Happens(p: Policy, w: int, s: Proc, e: Event, s': Proc) {
    match e
    case Failure(ip, r, o) => r.query <= r.ask && Failed(p, w, s, ip, r, o, s')
    case SignsIn(ips) => s' == s.(fails := s.fails - ips, cache := s.cache - ips, rows := s.rows - ips)
    case Reload(query, stamp) => Loads(s.rows, query, s'.cache) && s' == s.(cache := s'.cache, refreshed := stamp)
    case Elsewhere(rows, counts) => s' == s.(rows := rows, counts := counts)
  }

  /** Table and cache both hold a ban of `ip` that lasts until `until` or longer. */
  predicate Cooling(s: Proc, ip: string, until: Time) {
    ip in s.rows && until <= s.rows[ip] && ip in s.cache && until <= s.cache[ip]
  }

  /**
   * The event is over before `until`, reloads see every active row, nobody signs in from `ip`, and the
   * other processes leave its ban and its count alone.
   */
  predicate Spares(s: Proc, e: Event, ip: string, until: Time) {
    match e
    case Failure(_, r, _) => r.ask < until && |Active(s.rows, r.query)| <= MAX_CACHED
    case SignsIn(ips) => ip !in ips
    case Reload(query, _) => query < until && |Active(s.rows, query)| <= MAX_CACHED
    case Elsewhere(rows, counts) =>
      && (ip in s.rows ==> ip in rows && rows[ip] == s.rows[ip])
      && CountOf(counts, ip) == CountOf(s.counts, ip)
  }

  /** Neither the expiry nor the count of `ip` moved. */
  predicate Unmoved(s: Proc, s': Proc, ip: string) {
    && ip in s.rows && ip in s'.rows && s'.rows[ip] == s.rows[ip]
    && CountOf(s'.counts, ip) == CountOf(s.counts, ip)
  }

  lemma ReloadKeepsCooling(s: Proc, query: Time, view: Bans, ip: string, until: Time)
    requires Cooling(s, ip, until) && query < until && |Active(s.rows, query)| <= MAX_CACHED
    requires Loads(s.rows, query, view)
    ensures ip in view && until <= view[ip]
  {
    assert ip in Active(s.rows, query);
  }

  /** A failure of any IP, counted or not, moves nothing of one that is cooling down. */
  lemma AnswerKeepsCooling(p: Policy, s: Proc, of: string, r: Readings, o: Outcome, s': Proc, ip: string, until: Time)
    requires AskedAndAnswered(p, s, of, r, o, s') && Cooling(s, ip, until)
    requires r.query <= r.ask < until && |Active(s.rows, r.query)| <= MAX_CACHED
    ensures Cooling(s', ip, until) && Unmoved(s, s', ip)
    ensures of == ip ==> o == AlreadyBanned
  {
    var view :| Consults(s.rows, s.cache, s.refreshed, r.age, r.query, view) && Answered(p, s, of, r, view, o, s');
    if Stale(s.refreshed, r.age) {
      ReloadKeepsCooling(s, r.query, view, ip, until);
    }
    assert ip in view && until <= view[ip];
  }

  lemma EventKeepsCooling(p: Policy, w: int, s: Proc, e: Event, s': Proc, ip: string, until: Time)
    requires Happens(p, w, s, e, s') && Spares(s, e, ip, until) && Cooling(s, ip, until)
    ensures Cooling(s', ip, until) && Unmoved(s, s', ip)
    ensures e.Failure? && e.ip == ip ==> e.o != Cooldown
  {
    match e {
      case Failure(of, r, o) =>
        var n: nat, m: Proc :|
          && Tallied(p, w, s, of, r, n, m) && (o == BelowLimit <==> n < p.failsLimit)
          && if o == BelowLimit then s' == m else s'.fails == m.fails && AskedAndAnswered(p, m, of, r, o, s');
        if o != BelowLimit {
          AnswerKeepsCooling(p, m, of, r, o, s', ip, until);
        }
      case Reload(query, _) => ReloadKeepsCooling(s, query, s'.cache, ip, until);
      case _ =>
    }
  }

  ghost predicate EventAt(p: Policy, w: int, states: seq<Proc>, events: seq<Event>, ip: string, until: Time, n: nat)
    requires n < |events| < |states|
  {
    Happens(p, w, states[n], events[n], states[n + 1]) && Spares(states[n], events[n], ip, until)
  }

  /**
   * While an IP is cooling down, failures change neither its count nor its expiry and issue no cooldown,
   * however many there are and whatever happens to other IPs meanwhile.
   */
  lemma {:induction false} FailuresDuringCooldownMoveNothing(p: Policy, w: int, states: seq<Proc>, events: seq<Event>,
                                                             ip: string, until: Time, n: nat)
    requires |states| == |events| + 1 && n <= |events| && Cooling(states[0], ip, until)
    requires forall m :: 0 <= m < |events| ==> EventAt(p, w, states, events, ip, until, m)
    ensures Cooling(states[n], ip, until) && Unmoved(states[0], states[n], ip)
    ensures forall m :: 0 <= m < n && events[m].Failure? && events[m].ip == ip ==> events[m].o != Cooldown
  {
    if n > 0 {
      FailuresDuringCooldownMoveNothing(p, w, states, events, ip, until, n - 1);
      assert EventAt(p, w, states, events, ip, until, n - 1);
      EventKeepsCooling(p, w, states[n - 1], events[n - 1], states[n], ip, until);
    }
  }

  /** The cooldown that starts it: the process that issues a ban is cooling the IP down from then on. */
  lemma IssuingStartsCooling(p: Policy, w: int, s: Proc, ip: string, r: Readings, s': Proc)
    requires Failed(p, w, s, ip, r, Cooldown, s') && ip != ""
    ensures IssuedUntil(p, s'.counts, ip, r) >= 0 && Cooling(s', ip, IssuedUntil(p, s'.counts, ip, r))
  {
  }

  // ----- when a cooldown comes and how long it lasts -----

  /**
   * A cooldown below the threshold, or with escalation off, bans the IP for the configured duration, in the
   * table and in the process's cache.
   */
  lemma CooldownLasts(p: Policy, w: int, s: Proc, ip: string, r: Readings, s': Proc, t: Time)
    requires Failed(p, w, s, ip, r, Cooldown, s') && ip != ""
    requires p.escalateAt <= 0 || CountOf(s'.counts, ip) < p.escalateAt
    requires t <= r.ban + p.banDuration
    ensures Banned(s'.cache, ip, t) && Banned(s'.rows, ip, t)
  {
  }

  /** ... and no longer, if the IP had no ban before. */
  lemma CooldownEnds(p: Policy, w: int, s: Proc, ip: string, r: Readings, s': Proc, t: Time)
    requires Failed(p, w, s, ip, r, Cooldown, s') && ip != ""
    requires p.escalateAt <= 0 || CountOf(s'.counts, ip) < p.escalateAt
    requires ip !in s.rows && ip !in s.cache && r.ban + p.banDuration < t
    ensures !Banned(s'.cache, ip, t) && !Banned(s'.rows, ip, t)
  {
  }

  /** From the threshold on the ban lasts until 2125, whatever the clock says when it is issued. */
  lemma EscalatedCooldownLasts(p: Policy, w: int, s: Proc, ip: string, r: Readings, s': Proc, t: Time)
    requires Failed(p, w, s, ip, r, Cooldown, s') && ip != "" && r.remaining <= r.ban
    requires p.escalateAt > 0 && CountOf(s'.counts, ip) >= p.escalateAt
    requires t <= 775_775 * 86_400 * SECOND
    ensures Banned(s'.cache, ip, t) && Banned(s'.rows, ip, t)
  {
  }

  /**
   * A failure stays below the limit exactly when the IP's failures since it was last reset or evicted, this
   * one included, that lie within the window are fewer than the limit. `ops` is the counter's run so far.
   */
  lemma FailureTripsExactlyWhen(p: Policy, w: int, s: Proc, ops: seq<FailCounter.Op>, ip: string, r: Readings,
                                o: Outcome, s': Proc)
    requires FailCounter.Exact(w, s.fails, ops, ip) && p.failsWindow <= w
    requires FailCounter.Clock(ops) <= r.evict <= r.record <= r.count
    requires Failed(p, w, s, ip, r, o, s')
    ensures o == BelowLimit <==>
            FailCounter.CountAfter(FailCounter.History(ops, ip) + [r.record], r.count - p.failsWindow) < p.failsLimit
  {
    var n: nat, m: Proc :| Tallied(p, w, s, ip, r, n, m) && (o == BelowLimit <==> n < p.failsLimit);
    TallyMatchesHistory(p, w, s, ops, ip, r, n, m);
  }

  lemma TallyMatchesHistory(p: Policy, w: int, s: Proc, ops: seq<FailCounter.Op>, ip: string, r: Readings,
                            n: nat, m: Proc)
    requires FailCounter.Exact(w, s.fails, ops, ip) && p.failsWindow <= w
    requires FailCounter.Clock(ops) <= r.evict <= r.record <= r.count && Tallied(p, w, s, ip, r, n, m)
    ensures n == FailCounter.CountAfter(FailCounter.History(ops, ip) + [r.record], r.count - p.failsWindow)
  {
    var dropped: set<string> :| FailCounter.Recorded(w, s.fails, ip, r.evict, r.record, dropped, m.fails);
    OwnRecordMatchesHistory(w, s.fails, ops, FailCounter.Record(ip, r.evict, r.record, dropped), m.fails,
                            r.count - p.failsWindow);
  }

  lemma OwnRecordMatchesHistory(w: int, e: FailCounter.Entries, ops: seq<FailCounter.Op>, op: FailCounter.Op,
                                e': FailCounter.Entries, c: int)
    requires op.Record? && FailCounter.Exact(w, e, ops, op.key)
    requires FailCounter.Next(w, FailCounter.Clock(ops), e, op, e')
    requires c >= op.now - w
    ensures FailCounter.CountAfter(FailCounter.Times(e', op.key), c) ==
            FailCounter.CountAfter(FailCounter.History(ops, op.key) + [op.now], c)
  {
    FailCounter.RecordIsExact(w, e, ops, op, e', op.key, c);
    FailCounter.RecordedHistory(ops, op, op.key, c);
    OwnKeyIsNotDropped(w, e, op.key, op.evictNow, op.now, op.dropped, e');
    FailCounter.CountAfterAppend(FailCounter.History(ops, op.key), op.now, c);
  }

  lemma OwnKeyIsNotDropped(w: int, e: FailCounter.Entries, key: string, evictNow: Time, now: Time, dropped: set<string>,
                           e': FailCounter.Entries)
    requires FailCounter.Recorded(w, e, key, evictNow, now, dropped, e')
    ensures key !in dropped
  {
  }

}
