/**
 * The request rules built on the failure counter (portal/main.go): rule 5 limits invalid guest
 * codes per MAC, rule 1 limits /auth/start per email in two windows at once. Both are
 * "count, compare, record", and the point proved here is that the pruned, capacity-bounded
 * counter still gives a true sliding-window bound at every alignment of the window.
 */
module SlidingWindow {
  import opened Common
  import opened FailCounter

  /** How many times lie in the half-open interval (from, from + len]. */
  function CountWithin(ts: seq<Time>, from: int, len: int): nat {
    if ts == [] then 0
    else CountWithin(ts[..|ts| - 1], from, len) + if from < ts[|ts| - 1] <= from + len then 1 else 0
  }

  /** No interval of length `window` holds more than `bound` times. */
  ghost predicate Bounded(ts: seq<Time>, window: int, bound: nat) {
    forall a: int :: CountWithin(ts, a, window) <= bound
  }

  /** CountWithin is a count: of the first n times, as many as there are positions with one in the interval. */
  lemma {:induction false} CountWithinCounts(ts: seq<Time>, from: int, len: int, n: nat)
    requires n <= |ts|
    ensures CountWithin(ts[..n], from, len) == |set i: nat | i < n && from < ts[i] <= from + len|
  {
    var all := set i: nat | i < n && from < ts[i] <= from + len;
    if n == 0 {
      assert all == {};
    } else {
      CountWithinCounts(ts, from, len, n - 1);
      assert ts[..n][..n - 1] == ts[..n - 1];
      var rest := set i: nat | i < n - 1 && from < ts[i] <= from + len;
      if from < ts[n - 1] <= from + len {
        assert all == rest + {n - 1};
      } else {
        assert all == rest;
      }
    }
  }

  lemma {:induction false} WithinIsAfter(ts: seq<Time>, from: int, len: int, cutoff: int)
    requires cutoff <= from
    ensures CountWithin(ts, from, len) <= CountAfter(ts, cutoff)
  {
    if ts != [] {
      WithinIsAfter(ts[..|ts| - 1], from, len, cutoff);
    }
  }

  /** Admitting one more failure when the count at the check was below the bound keeps the bound. */
  lemma AdmitKeepsBound(ts: seq<Time>, window: int, bound: nat, check: Time, now: Time)
    requires Bounded(ts, window, bound) && check <= now
    requires CountAfter(ts, check - window) < bound
    ensures Bounded(ts + [now], window, bound)
  {
    assert (ts + [now])[..|ts|] == ts;
    forall a: int ensures CountWithin(ts + [now], a, window) <= bound {
      assert CountWithin(ts + [now], a, window) == CountWithin(ts, a, window) + if a < now <= a + window then 1 else 0;
      if a < now <= a + window {
        WithinIsAfter(ts, a, window, check - window);
      }
    }
  }

  /** The countIn of a request: the number of operations that came before it, and its clock reading. */
  datatype Check = Check(seen: nat, at: Time)

  predicate RecordsKey(op: Op, key: string) {
    op.Record? && op.key == key
  }

  function RecordsOf(ops: seq<Op>, key: string): nat {
    if ops == [] then 0 else RecordsOf(ops[..|ops| - 1], key) + if RecordsKey(ops[|ops| - 1], key) then 1 else 0
  }

  /**
   * If operation i records a failure of `key`, its handler found the count below the limit at an earlier
   * check. Anything may have happened on the counter since - sweeps, resets, other keys - but at most
   * `overlap` other requests recorded the same key in between. Zero means that the requests of one key
   * are served one after another.
   */
  ghost predicate AdmittedAt(states: seq<Entries>, ops: seq<Op>, checks: seq<Check>, key: string,
                             window: int, limit: int, overlap: nat, i: nat)
    requires i < |ops| < |states| && i < |checks|
  {
    RecordsKey(ops[i], key) ==>
      && checks[i].seen <= i && Clock(ops[..checks[i].seen]) <= checks[i].at <= ops[i].now
      && CountAfter(Times(states[checks[i].seen], key), checks[i].at - window) < limit
      && RecordsOf(ops[checks[i].seen..i], key) <= overlap
  }

  /** Every recorded failure of `key` in the run was admitted by its rule. */
  ghost predicate Guarded(states: seq<Entries>, ops: seq<Op>, checks: seq<Check>, key: string,
                          window: int, limit: int, overlap: nat)
    requires |states| == |ops| + 1 && |checks| == |ops|
  {
    forall i :: 0 <= i < |ops| ==> AdmittedAt(states, ops, checks, key, window, limit, overlap, i)
  }

  /** Later operations add to a count at most the key's own records; resets and evictions only lower it. */
  lemma {:induction false} LaterHistory(ops: seq<Op>, more: seq<Op>, key: string, cutoff: int)
    ensures CountAfter(History(ops + more, key), cutoff) <= CountAfter(History(ops, key), cutoff) + RecordsOf(more, key)
  {
    if more == [] {
      assert ops + more == ops;
    } else {
      var init, op := more[..|more| - 1], more[|more| - 1];
      LaterHistory(ops, init, key, cutoff);
      assert ops + more == (ops + init) + [op];
      OneMore(ops + init, op, key, cutoff);
    }
  }

  lemma OneMore(ops: seq<Op>, op: Op, key: string, cutoff: int)
    ensures CountAfter(History(ops + [op], key), cutoff) <=
            CountAfter(History(ops, key), cutoff) + if RecordsKey(op, key) then 1 else 0
  {
    if op.Record? {
      RecordedHistory(ops, op, key, cutoff);
    } else {
      assert (ops + [op])[..|ops|] == ops;
    }
  }

  /** What the handler saw at its check bounds the history at its record. */
  lemma CheckBoundsHistory(w: int, e: Entries, before: seq<Op>, since: seq<Op>, key: string, window: int, limit: int,
                           check: Time)
    requires Exact(w, e, before, key) && window <= w && Clock(before) <= check
    requires CountAfter(Times(e, key), check - window) < limit
    ensures CountAfter(History(before + since, key), check - window) < limit + RecordsOf(since, key)
  {
    LaterHistory(before, since, key, check - window);
  }

  /** One operation keeps the bound, given what was found about the history for an admitted record. */
  lemma StepKeepsBound(ops: seq<Op>, op: Op, check: Time, key: string, window: int, bound: nat)
    requires Bounded(History(ops, key), window, bound)
    requires RecordsKey(op, key) ==> check <= op.now && CountAfter(History(ops, key), check - window) < bound
    ensures Bounded(History(ops + [op], key), window, bound)
  {
    assert (ops + [op])[..|ops|] == ops;
    var h := History(ops, key);
    if op.Record? {
      var h' := if key in op.dropped then [] else h;
      if op.key == key {
        AdmitKeepsBound(h', window, bound, check, op.now);
      } else {
        assert h' + [] == h';
      }
    }
  }

  lemma AdmittedIsBelow(w: int, states: seq<Entries>, ops: seq<Op>, checks: seq<Check>,
                        key: string, window: int, limit: int, overlap: nat, i: nat)
    requires Run(w, states, ops) && |checks| == |ops| && i < |ops| && window <= w
    requires Guarded(states, ops, checks, key, window, limit, overlap) && RecordsKey(ops[i], key)
    ensures checks[i].at <= ops[i].now
    ensures CountAfter(History(ops[..i], key), checks[i].at - window) < Max(limit, 0) + overlap
  {
    assert AdmittedAt(states, ops, checks, key, window, limit, overlap, i);
    var c := checks[i];
    RunIsExact(w, states, ops, c.seen, key);
    CheckBoundsHistory(w, states[c.seen], ops[..c.seen], ops[c.seen..i], key, window, limit, c.at);
    assert ops[..c.seen] + ops[c.seen..i] == ops[..i];
  }

  lemma {:induction false} BoundedAt(w: int, states: seq<Entries>, ops: seq<Op>, checks: seq<Check>,
                                     key: string, window: int, limit: int, overlap: nat, n: nat)
    requires Run(w, states, ops) && |checks| == |ops| && n <= |ops|
    requires Guarded(states, ops, checks, key, window, limit, overlap) && window <= w
    ensures Bounded(History(ops[..n], key), window, Max(limit, 0) + overlap)
  {
    if n > 0 {
      var i := n - 1;
      BoundedAt(w, states, ops, checks, key, window, limit, overlap, i);
      if RecordsKey(ops[i], key) {
        AdmittedIsBelow(w, states, ops, checks, key, window, limit, overlap, i);
      }
      StepKeepsBound(ops[..i], ops[i], checks[i].at, key, window, Max(limit, 0) + overlap);
      assert ops[..n] == ops[..i] + [ops[i]];
    }
  }

  /**
   * Rule 5, and each half of rule 1: whatever else happens on the counter - other keys, sweeps,
   * resets, evictions, also between a request's check and its record - every half-open interval of the
   * rule's window holds at most `limit` of the key's failures since its last reset or eviction, and
   * one more for each request of the key that may overtake another between its check and its record.
   */
  lemma SlidingWindowBound(w: int, states: seq<Entries>, ops: seq<Op>, checks: seq<Check>,
                           key: string, window: int, limit: int, overlap: nat, a: int)
    requires Run(w, states, ops) && |checks| == |ops|
    requires Guarded(states, ops, checks, key, window, limit, overlap) && window <= w
    ensures CountWithin(History(ops, key), a, window) <= Max(limit, 0) + overlap
  {
    BoundedAt(w, states, ops, checks, key, window, limit, overlap, |ops|);
    assert ops[..|ops|] == ops;
  }

  /** Rule 1: the two windows of /auth/start hold at the same time, at every alignment of each. */
  lemma DualWindowBound(w: int, states: seq<Entries>, ops: seq<Op>, shortChecks: seq<Check>, longChecks: seq<Check>,
                        email: string, short: int, shortLimit: int, long: int, longLimit: int, overlap: nat,
                        a: int, b: int)
    requires Run(w, states, ops) && |shortChecks| == |longChecks| == |ops|
    requires Guarded(states, ops, shortChecks, email, short, shortLimit, overlap) && short <= w
    requires Guarded(states, ops, longChecks, email, long, longLimit, overlap) && long <= w
    ensures CountWithin(History(ops, email), a, short) <= Max(shortLimit, 0) + overlap
    ensures CountWithin(History(ops, email), b, long) <= Max(longLimit, 0) + overlap
  {
    SlidingWindowBound(w, states, ops, shortChecks, email, short, shortLimit, overlap, a);
    SlidingWindowBound(w, states, ops, longChecks, email, long, longLimit, overlap, b);
  }

  // ----- several instances -----

  /** One portal process: its counter's run and the instants at which its handler checked the rule. */
  datatype Instance = Instance(states: seq<Entries>, ops: seq<Op>, checks: seq<Check>)

  ghost predicate Limited(i: Instance, w: int, key: string, window: int, limit: int, overlap: nat) {
    && Run(w, i.states, i.ops) && |i.checks| == |i.ops|
    && Guarded(i.states, i.ops, i.checks, key, window, limit, overlap)
  }

  function TotalWithin(fleet: seq<Instance>, key: string, from: int, len: int): nat {
    if fleet == [] then 0
    else
      TotalWithin(fleet[..|fleet| - 1], key, from, len)
      + CountWithin(History(fleet[|fleet| - 1].ops, key), from, len)
  }

  /** The counters are per process, so N instances admit at most N times as many. */
  lemma {:induction false} InstancesMultiplyTheLimit(fleet: seq<Instance>, w: int, key: string, window: int, limit: int,
                                                     overlap: nat, a: int)
    requires forall i :: 0 <= i < |fleet| ==> Limited(fleet[i], w, key, window, limit, overlap)
    requires window <= w
    ensures TotalWithin(fleet, key, a, window) <= |fleet| * (Max(limit, 0) + overlap)
  {
    if fleet != [] {
      var rest, last := fleet[..|fleet| - 1], fleet[|fleet| - 1];
      InstancesMultiplyTheLimit(rest, w, key, window, limit, overlap, a);
      var m := Max(limit, 0) + overlap;
      assert (|rest| + 1) * m == |rest| * m + m;
      assert Limited(last, w, key, window, limit, overlap);
      SlidingWindowBound(w, last.states, last.ops, last.checks, key, window, limit, overlap, a);
    }
  }

  // ----- the handlers -----

  datatype Verdict = RateLimited | Rejected | Accepted

  /**
   * The rule-5 part of handleGuestCode without interference. `redeemed` is what Validate answered; `check` is countIn's
   * clock reading, `evictNow` and `now` are record's.
   */
  method GuestCodeAttempt(c: Counter, mac: string, window: int, limit: int, redeemed: bool,
                          check: Time, evictNow: Time, now: Time) returns (v: Verdict, ghost dropped: set<string>)
    modifies c
    ensures v == RateLimited <==> CountAfter(Times(old(c.entries), mac), check - window) >= limit
    ensures v == RateLimited ==> c.entries == old(c.entries)
    ensures v == Rejected ==> !redeemed && Recorded(c.maxWindow, old(c.entries), mac, evictNow, now, dropped, c.entries)
    ensures v == Accepted ==> redeemed && c.entries == if mac != "" then old(c.entries) - {mac} else old(c.entries)
  {
    dropped := {};
    var n := c.CountIn(mac, window, check);
    if n >= limit {
      return RateLimited, {};
    }
    if !redeemed {
      dropped := c.Record(mac, evictNow, now);
      return Rejected, dropped;
    }
    if mac != "" {
      c.Reset(mac);
    }
    v := Accepted;
  }

  /** The rule-1 part of handleAuthStart: both windows are compared before the attempt is recorded. */
  method AuthStart(c: Counter, email: string, short: int, shortLimit: int, long: int, longLimit: int,
                   shortCheck: Time, longCheck: Time, evictNow: Time, now: Time)
    returns (v: Verdict, ghost dropped: set<string>)
    modifies c
    ensures v == RateLimited <==>
            || CountAfter(Times(old(c.entries), email), shortCheck - short) >= shortLimit
            || CountAfter(Times(old(c.entries), email), longCheck - long) >= longLimit
    ensures v == RateLimited ==> c.entries == old(c.entries)
    ensures v != RateLimited ==>
              v == Accepted && Recorded(c.maxWindow, old(c.entries), email, evictNow, now, dropped, c.entries)
  {
    dropped := {};
    var shortN := c.CountIn(email, short, shortCheck);
    var longN := c.CountIn(email, long, longCheck);
    if shortN >= shortLimit || longN >= longLimit {
      return RateLimited, {};
    }
    dropped := c.Record(email, evictNow, now);
    v := Accepted;
  }
}
