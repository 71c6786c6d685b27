/**
 * The per-process failure counter (portal/ratelimit.go): a map from key to failure times,
 * pruned to `maxWindow` by a periodic sweep and bounded to CAP keys.
 */
module FailCounter {
  import opened Common
  import opened Eviction

  const CAP: nat := 100000
  const TARGET: nat := CAP * 9 / 10

  type Entries = map<string, seq<Time>>

  // ----- what the counter computes -----

  function Times(e: Entries, key: string): seq<Time> {
    if key in e then e[key] else []
  }

  /** How many times lie strictly after `cutoff`. */
  function CountAfter(ts: seq<Time>, cutoff: int): nat {
    if ts == [] then 0 else CountAfter(ts[..|ts| - 1], cutoff) + if ts[|ts| - 1] > cutoff then 1 else 0
  }

  /** The times strictly after `cutoff`, in order. */
  function KeepAfter(ts: seq<Time>, cutoff: int): seq<Time> {
    if ts == [] then []
    else if ts[|ts| - 1] > cutoff then KeepAfter(ts[..|ts| - 1], cutoff) + [ts[|ts| - 1]]
    else KeepAfter(ts[..|ts| - 1], cutoff)
  }

  function Latest(ts: seq<Time>): Time {
    if ts == [] then 0 else Max(Latest(ts[..|ts| - 1]), ts[|ts| - 1])
  }

  /** The window prune: stale times go, and so does a key with none left. */
  function Pruned(e: Entries, cutoff: int): Entries {
    map k | k in e && KeepAfter(e[k], cutoff) != [] :: KeepAfter(e[k], cutoff)
  }

  /** `e'` restricts `p`, and no key left out failed more recently than one kept. */
  ghost predicate QuietestDropped(p: Entries, e': Entries)
    requires e'.Keys <= p.Keys
  {
    && (forall k :: k in e' ==> e'[k] == p[k])
    && forall d, k :: d in p && d !in e' && k in e' ==> Latest(p[d]) <= Latest(p[k])
  }

  /** The outcome of making room: prune, then drop the keys whose latest failure is oldest. */
  ghost predicate MadeRoom(e: Entries, cutoff: int, e': Entries) {
    var p := Pruned(e, cutoff);
    if |p| < CAP then e' == p else |e'| == TARGET && e'.Keys <= p.Keys && QuietestDropped(p, e')
  }

  ghost predicate NeedsRoom(e: Entries, key: string) {
    key !in e && |e| >= CAP
  }

  /** What a record finds after room was made if it was needed; `dropped` went for capacity. */
  ghost predicate Roomed(w: int, e: Entries, key: string, evictNow: Time, dropped: set<string>, m: Entries) {
    if NeedsRoom(e, key) then MadeRoom(e, evictNow - w, m) && dropped == Pruned(e, evictNow - w).Keys - m.Keys
    else m == e && dropped == {}
  }

  function Appended(e: Entries, key: string, now: Time): Entries {
    e[key := Times(e, key) + [now]]
  }

  /** The effect of one record call. */
  ghost predicate Recorded(w: int, e: Entries, key: string, evictNow: Time, now: Time, dropped: set<string>,
                           e': Entries) {
    exists m :: Roomed(w, e, key, evictNow, dropped, m) && e' == Appended(m, key, now)
  }

  // ----- the counter itself -----

  class Counter {
    var entries: Entries
    const maxWindow: int

    constructor (maxWindow: int)
      ensures entries == map[] && this.maxWindow == maxWindow
    {
      entries := map[];
      this.maxWindow := maxWindow;
    }

    /** `evictNow` and `now` are the two clock readings of one call. */
    method Record(key: string, evictNow: Time, now: Time) returns (ghost dropped: set<string>)
      modifies this
      ensures Recorded(maxWindow, old(entries), key, evictNow, now, dropped, entries)
    {
      dropped := {};
      if key !in entries && |entries| >= CAP {
        EvictOldest(evictNow);
        dropped := Pruned(old(entries), evictNow - maxWindow).Keys - entries.Keys;
      }
      assert Roomed(maxWindow, old(entries), key, evictNow, dropped, entries);
      entries := entries[key := Times(entries, key) + [now]];
    }

    method EvictOldest(now: Time)
      modifies this
      ensures MadeRoom(old(entries), now - maxWindow, entries)
    {
      Prune(now - maxWindow);
      if |entries| < CAP {
        return;
      }
      var last := LatestTimes(entries);
      assert |last.Keys| == |entries.Keys|;
      var kept := KeepLatest(last, TARGET);
      entries := map k | k in entries && k in kept :: entries[k];
      assert entries.Keys == kept;
    }

    /** The sweep's body, also run first by EvictOldest. */
    method Prune(cutoff: int)
      modifies this
      ensures entries == Pruned(old(entries), cutoff)
    {
      var before := entries;
      var todo := entries.Keys;
      while todo != {}
        invariant todo <= before.Keys
        invariant forall k :: k in todo ==> k in entries && entries[k] == before[k]
        invariant forall k :: k in entries ==>
                    k in before && (k in todo || entries[k] == KeepAfter(before[k], cutoff) != [])
        invariant forall k :: k in before && k !in todo && KeepAfter(before[k], cutoff) != [] ==> k in entries
        decreases todo
      {
        var k :| k in todo;
        var kept := Compact(entries[k], cutoff);
        if kept == [] {
          entries := entries - {k};
        } else {
          entries := entries[k := kept];
        }
        todo := todo - {k};
      }
    }

    method Collect(now: Time)
      modifies this
      ensures entries == Pruned(old(entries), now - maxWindow)
    {
      Prune(now - maxWindow);
    }

    method CountIn(key: string, window: int, now: Time) returns (n: nat)
      ensures n == CountAfter(Times(entries, key), now - window)
    {
      var ts := Times(entries, key);
      n := 0;
      var i := 0;
      while i < |ts|
        invariant 0 <= i <= |ts| && n == CountAfter(ts[..i], now - window)
      {
        if ts[i] > now - window { n := n + 1; }
        assert ts[..i + 1][..i] == ts[..i];
        i := i + 1;
      }
      assert ts[..i] == ts;
    }

    method Reset(key: string)
      modifies this
      ensures entries == old(entries) - {key}
    {
      entries := entries - {key};
    }

    method ResetAll() returns (n: nat)
      modifies this
      ensures entries == map[] && n == |old(entries)|
    {
      n := |entries|;
      entries := map[];
    }
  }

  method Compact(ts: seq<Time>, cutoff: int) returns (kept: seq<Time>)
    ensures kept == KeepAfter(ts, cutoff)
  {
    kept := [];
    var i := 0;
    while i < |ts|
      invariant 0 <= i <= |ts| && kept == KeepAfter(ts[..i], cutoff)
    {
      if ts[i] > cutoff { kept := kept + [ts[i]]; }
      assert ts[..i + 1][..i] == ts[..i];
      i := i + 1;
    }
    assert ts[..i] == ts;
  }

  method LatestTime(ts: seq<Time>) returns (latest: Time)
    ensures latest == Latest(ts)
  {
    latest := 0;
    var i := 0;
    while i < |ts|
      invariant 0 <= i <= |ts| && latest == Latest(ts[..i])
    {
      if ts[i] > latest { latest := ts[i]; }
      assert ts[..i + 1][..i] == ts[..i];
      i := i + 1;
    }
    assert ts[..i] == ts;
  }

  method LatestTimes(e: Entries) returns (last: map<string, int>)
    ensures last.Keys == e.Keys
    ensures forall k :: k in e ==> last[k] == Latest(e[k])
  {
    last := map[];
    var todo := e.Keys;
    while todo != {}
      invariant todo <= e.Keys && last.Keys == e.Keys - todo
      invariant forall k :: k in last ==> last[k] == Latest(e[k])
      decreases todo
    {
      var k :| k in todo;
      var t := LatestTime(e[k]);
      last := last[k := t];
      todo := todo - {k};
    }
  }

  // ----- runs -----

  /** One call on the counter. `dropped` is the set of keys the call removed for capacity. */
  datatype Op =
    | Record(key: string, evictNow: Time, now: Time, dropped: set<string>)
    | Reset(key: string, now: Time)
    | ResetAll(now: Time)
    | Collect(read: Time, now: Time)

  /** The latest clock reading of a run so far. */
  function Clock(ops: seq<Op>): Time {
    if ops == [] then 0 else ops[|ops| - 1].now
  }

  ghost predicate Next(w: int, clock: Time, e: Entries, op: Op, e': Entries) {
    match op
    case Record(key, evictNow, now, dropped) =>
      clock <= evictNow <= now && Recorded(w, e, key, evictNow, now, dropped, e')
    case Reset(key, now) => clock <= now && e' == e - {key}
    case ResetAll(now) => clock <= now && e' == map[]
    // The sweep reads the clock before it takes the lock.
    case Collect(read, now) => clock <= now && read <= now && e' == Pruned(e, read - w)
  }

  ghost predicate StepAt(w: int, states: seq<Entries>, ops: seq<Op>, i: nat)
    requires i < |ops| < |states|
  {
    Next(w, Clock(ops[..i]), states[i], ops[i], states[i + 1])
  }

  ghost predicate Run(w: int, states: seq<Entries>, ops: seq<Op>) {
    && |states| == |ops| + 1
    && states[0] == map[]
    && forall i :: 0 <= i < |ops| ==> StepAt(w, states, ops, i)
  }

  /** Every failure of `key` since it was last reset or dropped for capacity; nothing is pruned. */
  function History(ops: seq<Op>, key: string): seq<Time> {
    if ops == [] then []
    else
      var before := History(ops[..|ops| - 1], key);
      match ops[|ops| - 1]
      case Record(k, _, now, dropped) => (if key in dropped then [] else before) + if k == key then [now] else []
      case Reset(k, _) => if k == key then [] else before
      case ResetAll(_) => []
      case Collect(_, _) => before
  }

  lemma {:induction false} CountAfterKept(ts: seq<Time>, c0: int, c: int)
    requires c0 <= c
    ensures CountAfter(KeepAfter(ts, c0), c) == CountAfter(ts, c)
  {
    if ts != [] {
      var init, last := ts[..|ts| - 1], ts[|ts| - 1];
      CountAfterKept(init, c0, c);
      var k := KeepAfter(init, c0);
      assert (k + [last])[..|k|] == k;
    }
  }

  lemma CountAfterAppend(ts: seq<Time>, t: Time, c: int)
    ensures CountAfter(ts + [t], c) == CountAfter(ts, c) + if t > c then 1 else 0
  {
    assert (ts + [t])[..|ts|] == ts;
  }

  /** What the sweeps and the eviction keep: counts no older than the window are never disturbed. */
  ghost predicate Exact(w: int, e: Entries, ops: seq<Op>, key: string) {
    forall c: int :: c >= Clock(ops) - w ==> CountAfter(Times(e, key), c) == CountAfter(History(ops, key), c)
  }

  lemma PruneIsExact(e: Entries, cutoff: int, key: string, c: int)
    requires cutoff <= c
    ensures CountAfter(Times(Pruned(e, cutoff), key), c) == CountAfter(Times(e, key), c)
  {
    if key in e {
      CountAfterKept(e[key], cutoff, c);
    }
  }

  lemma RoomIsExact(w: int, e: Entries, k: string, evictNow: Time, dropped: set<string>, m: Entries, key: string,
                    c: int)
    requires Roomed(w, e, k, evictNow, dropped, m) && evictNow - w <= c
    ensures CountAfter(Times(m, key), c) == if key in dropped then 0 else CountAfter(Times(e, key), c)
  {
    PruneIsExact(e, evictNow - w, key, c);
  }

  lemma AppendedCount(m: Entries, k: string, now: Time, key: string, c: int)
    ensures CountAfter(Times(Appended(m, k, now), key), c) ==
            CountAfter(Times(m, key), c) + if k == key && now > c then 1 else 0
  {
    if k == key {
      CountAfterAppend(Times(m, key), now, c);
    }
  }

  lemma RecordedHistory(ops: seq<Op>, op: Op, key: string, c: int)
    requires op.Record?
    ensures CountAfter(History(ops + [op], key), c) ==
            (if key in op.dropped then 0 else CountAfter(History(ops, key), c))
            + if op.key == key && op.now > c then 1 else 0
  {
    assert (ops + [op])[..|ops|] == ops;
    var h := if key in op.dropped then [] else History(ops, key);
    if op.key == key {
      CountAfterAppend(h, op.now, c);
    } else {
      assert h + [] == h;
    }
  }

  lemma RecordIsExact(w: int, e: Entries, ops: seq<Op>, op: Op, e': Entries, key: string, c: int)
    requires op.Record? && Exact(w, e, ops, key) && Next(w, Clock(ops), e, op, e')
    requires c >= op.now - w
    ensures CountAfter(Times(e', key), c) == CountAfter(History(ops + [op], key), c)
  {
    var m :| Roomed(w, e, op.key, op.evictNow, op.dropped, m) && e' == Appended(m, op.key, op.now);
    RoomIsExact(w, e, op.key, op.evictNow, op.dropped, m, key, c);
    AppendedCount(m, op.key, op.now, key, c);
    RecordedHistory(ops, op, key, c);
    assert CountAfter(Times(e, key), c) == CountAfter(History(ops, key), c);
  }

  lemma StepIsExact(w: int, e: Entries, ops: seq<Op>, op: Op, e': Entries, key: string)
    requires Exact(w, e, ops, key) && Next(w, Clock(ops), e, op, e')
    ensures Exact(w, e', ops + [op], key)
  {
    var ops' := ops + [op];
    assert ops'[..|ops|] == ops;
    forall c: int | c >= Clock(ops') - w
      ensures CountAfter(Times(e', key), c) == CountAfter(History(ops', key), c)
    {
      match op {
        case Record(_, _, _, _) => RecordIsExact(w, e, ops, op, e', key, c);
        case Reset(_, _) =>
        case ResetAll(_) =>
        case Collect(read, _) => PruneIsExact(e, read - w, key, c);
      }
    }
  }

  lemma {:induction false} RunIsExact(w: int, states: seq<Entries>, ops: seq<Op>, n: nat, key: string)
    requires Run(w, states, ops) && n <= |ops|
    ensures Exact(w, states[n], ops[..n], key)
  {
    if n == 0 {
      assert ops[..0] == [];
    } else {
      RunIsExact(w, states, ops, n - 1, key);
      assert StepAt(w, states, ops, n - 1);
      StepIsExact(w, states[n - 1], ops[..n - 1], ops[n - 1], states[n], key);
      assert ops[..n] == ops[..n - 1] + [ops[n - 1]];
    }
  }

  /**
   * countIn agrees with the unpruned history: after any run, for any key and any window no
   * longer than maxWindow, at any later instant.
   */
  lemma CountInMatchesHistory(w: int, states: seq<Entries>, ops: seq<Op>, key: string, window: int, now: Time)
    requires Run(w, states, ops) && window <= w && Clock(ops) <= now
    ensures CountAfter(Times(states[|ops|], key), now - window) == CountAfter(History(ops, key), now - window)
  {
    RunIsExact(w, states, ops, |ops|, key);
    assert ops[..|ops|] == ops;
  }

  /** The condition on the window cannot be dropped: any wider window undercounts after one sweep. */
  lemma WiderWindowUndercounts(w: nat, window: int, key: string) returns (states: seq<Entries>, ops: seq<Op>)
    requires w < window
    ensures Run(w, states, ops)
    ensures CountAfter(Times(states[|ops|], key), Clock(ops) - window) <
            CountAfter(History(ops, key), Clock(ops) - window)
  {
    var r, c := Record(key, 1, 1, {}), Collect(1 + w, 1 + w);
    var none: Entries, one: Entries := map[], map[key := [1 as Time]];
    ops, states := [r, c], [none, one, none];
    assert Next(w, 0, none, r, one) by {
      assert Times(none, key) + [1] == [1];
      assert Roomed(w, none, key, 1, {}, none) && one == Appended(none, key, 1);
    }
    assert Next(w, 1, one, c, none) by {
      assert KeepAfter([1], 1) == [];
      assert Pruned(one, 1) == none;
    }
    assert ops[..1] == [r] && ops[..0] == [] && [r][..0] == [];
    assert StepAt(w, states, ops, 0) && StepAt(w, states, ops, 1);
    assert History([r], key) == [1];
    assert History(ops, key) == [1];
  }

  /** In a run where `key` is never dropped for capacity, History is everything since its last reset. */
  function SinceReset(ops: seq<Op>, key: string): seq<Time> {
    if ops == [] then []
    else
      var before := SinceReset(ops[..|ops| - 1], key);
      match ops[|ops| - 1]
      case Record(k, _, now, _) => before + if k == key then [now] else []
      case Reset(k, _) => if k == key then [] else before
      case ResetAll(_) => []
      case Collect(_, _) => before
  }

  lemma {:induction false} NeverDropped(ops: seq<Op>, key: string)
    requires forall i :: 0 <= i < |ops| && ops[i].Record? ==> key !in ops[i].dropped
    ensures History(ops, key) == SinceReset(ops, key)
  {
    if ops != [] {
      NeverDropped(ops[..|ops| - 1], key);
    }
  }

  lemma RecordStaysWithinCap(w: int, e: Entries, key: string, evictNow: Time, now: Time, dropped: set<string>,
                             e': Entries)
    requires |e| <= CAP && Recorded(w, e, key, evictNow, now, dropped, e')
    ensures |e'| <= CAP
  {
    var m :| Roomed(w, e, key, evictNow, dropped, m) && e' == Appended(m, key, now);
    assert e'.Keys == m.Keys + {key};
    if key in m {
      assert e'.Keys == m.Keys;
    }
  }

  lemma {:induction false} RunStaysWithinCap(w: int, states: seq<Entries>, ops: seq<Op>, n: nat)
    requires Run(w, states, ops) && n <= |ops|
    ensures |states[n]| <= 100_000
  {
    if n > 0 {
      RunStaysWithinCap(w, states, ops, n - 1);
      assert StepAt(w, states, ops, n - 1);
      var e, op, e' := states[n - 1], ops[n - 1], states[n];
      if op.Record? {
        RecordStaysWithinCap(w, e, op.key, op.evictNow, op.now, op.dropped, e');
      } else {
        SubsetSize(e'.Keys, e.Keys);
      }
    }
  }

  lemma {:induction false} LatestKept(ts: seq<Time>, cutoff: int)
    requires KeepAfter(ts, cutoff) != []
    ensures Latest(KeepAfter(ts, cutoff)) == Latest(ts)
    ensures Latest(ts) > cutoff
  {
    var init, last := ts[..|ts| - 1], ts[|ts| - 1];
    var k := KeepAfter(init, cutoff);
    if k != [] {
      LatestKept(init, cutoff);
    } else {
      DroppedAreStale(init, cutoff);
    }
    assert (k + [last])[..|k|] == k;
  }

  lemma {:induction false} DroppedAreStale(ts: seq<Time>, cutoff: int)
    requires KeepAfter(ts, cutoff) == []
    ensures ts == [] || Latest(ts) <= Max(cutoff, 0)
  {
    if ts != [] {
      DroppedAreStale(ts[..|ts| - 1], cutoff);
    }
  }

  lemma PruneKeepsLatest(e: Entries, cutoff: int, p: Entries, key: string)
    requires p == Pruned(e, cutoff) && key in p
    ensures key in e && Latest(p[key]) == Latest(e[key])
  {
    LatestKept(e[key], cutoff);
  }

  lemma PruneKeepsRanks(e: Entries, cutoff: int, p: Entries, low: string, high: string)
    requires p == Pruned(e, cutoff) && low in p && high in p && Latest(p[low]) <= Latest(p[high])
    ensures low in e && high in e && Latest(e[low]) <= Latest(e[high])
  {
    PruneKeepsLatest(e, cutoff, p, low);
    PruneKeepsLatest(e, cutoff, p, high);
  }

  lemma RoomDropsQuietest(w: int, e: Entries, key: string, evictNow: Time, dropped: set<string>, m: Entries,
                          gone: string, stays: string)
    requires Roomed(w, e, key, evictNow, dropped, m) && gone in dropped && stays in m
    ensures gone in e && stays in e && Latest(e[gone]) <= Latest(e[stays])
  {
    var p := Pruned(e, evictNow - w);
    assert QuietestDropped(p, m) && gone in p && stays in p;
    PruneKeepsRanks(e, evictNow - w, p, gone, stays);
  }

  /** A key dropped for capacity never failed more recently than a key that stayed. */
  lemma DropsTheLongestQuiet(w: int, e: Entries, key: string, evictNow: Time, now: Time, dropped: set<string>,
                             e': Entries, gone: string, stays: string)
    requires Recorded(w, e, key, evictNow, now, dropped, e')
    requires gone in dropped && stays in e' && stays != key
    ensures gone in e && stays in e && Latest(e[gone]) <= Latest(e[stays])
  {
    var m :| Roomed(w, e, key, evictNow, dropped, m) && e' == Appended(m, key, now);
    RoomDropsQuietest(w, e, key, evictNow, dropped, m, gone, stays);
  }

  /** CountAfter is a count: of the first n times, as many as there are positions with a later one. */
  lemma {:induction false} CountAfterCounts(ts: seq<Time>, cutoff: int, n: nat)
    requires n <= |ts|
    ensures CountAfter(ts[..n], cutoff) == |set i: nat | i < n && ts[i] > cutoff|
  {
    var all := set i: nat | i < n && ts[i] > cutoff;
    if n == 0 {
      assert all == {};
    } else {
      CountAfterCounts(ts, cutoff, n - 1);
      assert ts[..n][..n - 1] == ts[..n - 1];
      var rest := set i: nat | i < n - 1 && ts[i] > cutoff;
      if ts[n - 1] > cutoff {
        assert all == rest + {n - 1};
      } else {
        assert all == rest;
      }
    }
  }

  /** A prune keeps the times after the cutoff, all of them and no others. */
  lemma {:induction false} KeepsExactlyTheLater(ts: seq<Time>, cutoff: int)
    ensures forall i :: 0 <= i < |KeepAfter(ts, cutoff)| ==> KeepAfter(ts, cutoff)[i] > cutoff
    ensures |KeepAfter(ts, cutoff)| == CountAfter(ts, cutoff)
  {
    if ts != [] {
      KeepsExactlyTheLater(ts[..|ts| - 1], cutoff);
    }
  }

  /** Nobody is evicted while the counter holds fewer than 100000 keys, or by a key it already holds. */
  lemma NothingDroppedBelowCap(w: int, e: Entries, key: string, evictNow: Time, now: Time, dropped: set<string>,
                               e': Entries)
    requires Recorded(w, e, key, evictNow, now, dropped, e')
    requires |e| < 100_000 || key in e
    ensures dropped == {} && forall k :: k in e && k != key ==> k in e' && e'[k] == e[k]
    ensures key in e' && e'[key] == Times(e, key) + [now]
  {
  }

  /** An eviction for capacity leaves nine tenths of the cap, and the new key. */
  lemma EvictionLeavesNineTenths(w: int, e: Entries, key: string, evictNow: Time, now: Time, dropped: set<string>,
                                 e': Entries)
    requires Recorded(w, e, key, evictNow, now, dropped, e') && dropped != {}
    ensures |e'| == 90_001
  {
    var m :| Roomed(w, e, key, evictNow, dropped, m) && e' == Appended(m, key, now);
    RoomLeavesNineTenths(w, e, key, evictNow, dropped, m);
    NewKeyAddsOne(m, key, now);
  }

  lemma RoomLeavesNineTenths(w: int, e: Entries, key: string, evictNow: Time, dropped: set<string>, m: Entries)
    requires Roomed(w, e, key, evictNow, dropped, m) && dropped != {}
    ensures |m| == 90_000 && key !in m
  {
  }

  lemma NewKeyAddsOne(m: Entries, key: string, now: Time)
    requires key !in m
    ensures |Appended(m, key, now)| == |m| + 1
  {
  }

}
