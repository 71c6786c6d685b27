/**
 * Retention of the event log (portal/store_eventlog.go): the sweep deletes in bounded batches while
 * events keep arriving and other processes may be sweeping the same table.
 */
module EventLog {
  import opened Common
  import opened Eviction

  const BATCH: nat := 5000
  const MAX_BATCHES: nat := 1000

  type Events = map<nat, Time>

  function ExpiredIds(rows: Events, cutoff: int): set<nat> {
    set id | id in rows && rows[id] < cutoff
  }

  lemma ExpiredAreOlder(rows: Events, cutoff: int)
    ensures ExpiredIds(rows, cutoff) == set id | id in rows && rows[id] < cutoff
    ensures ExpiredIds(rows, cutoff) == {} ==> forall id :: id in rows ==> cutoff <= rows[id]
  {
    forall id | id in rows && rows[id] < cutoff ensures id in ExpiredIds(rows, cutoff) {
    }
  }

  /** What others do between two statements: they append events and may delete some. */
  datatype Gap = Gap(arrivals: seq<Time>, swept: set<nat>)

  /** New rows get consecutive keys. */
  function Numbered(n: nat, arrivals: seq<Time>): (added: Events)
    ensures forall id :: id in added ==> n <= id < n + |arrivals| && added[id] in arrivals
  {
    if arrivals == [] then map[]
    else Numbered(n, arrivals[..|arrivals| - 1])[n + |arrivals| - 1 := arrivals[|arrivals| - 1]]
  }

  /** The event table with its autoincrement key; `ever` remembers every event that was appended. */
  class EventTable {
    var rows: Events
    var nextId: nat
    ghost var ever: Events

    ghost predicate Valid()
      reads this
    {
      && (forall id :: id in rows ==> id in ever && rows[id] == ever[id])
      && (forall id :: id in ever ==> id < nextId)
    }

    constructor ()
      ensures Valid() && rows == map[] && ever == map[]
    {
      rows, nextId, ever := map[], 0, map[];
    }

    /** An event without a time gets the current one. */
    method Append(time: Time, now: Time) returns (id: nat)
      requires Valid()
      modifies this
      ensures Valid() && id == old(nextId) && id !in old(ever)
      ensures rows == old(rows)[id := if time == 0 then now else time] && ever == old(ever)[id := rows[id]]
    {
      id := nextId;
      var t := if time == 0 then now else time;
      rows := rows[id := t];
      ever := ever[id := t];
      nextId := nextId + 1;
    }

    /** `taken` is what others deleted. */
    method Interfere(g: Gap) returns (ghost taken: set<nat>)
      requires Valid()
      modifies this
      ensures Valid()
      ensures taken == set id | id in old(rows) && id in g.swept
      ensures forall id :: id in rows ==> id in old(rows) || (id !in old(ever) && rows[id] in g.arrivals)
      ensures forall id :: id in old(ever) ==> id in ever && ever[id] == old(ever)[id]
      ensures forall id :: id in ever && id !in old(ever) ==> id in rows
      ensures forall id :: id in old(rows) && id !in g.swept ==> id in rows
      ensures forall id :: id in old(rows) && id in g.swept ==> id !in rows
    {
      taken := set id | id in rows && id in g.swept;
      var n := nextId;
      var added := Numbered(n, g.arrivals);
      rows := (rows - g.swept) + added;
      ever := ever + added;
      nextId := n + |g.arrivals|;
    }
  }

  /** WHERE time < cutoff ORDER BY id */
  method ExpiredInOrder(rows: Events, cutoff: int) returns (all: seq<nat>)
    ensures SetOf(all) == ExpiredIds(rows, cutoff)
    ensures forall i, j :: 0 <= i < j < |all| ==> all[i] < all[j]
  {
    var rank: map<nat, int> := map id | id in ExpiredIds(rows, cutoff) :: id;
    all := SortByRank(rank);
    assert forall i :: 0 <= i < |all| ==> rank[all[i]] == all[i];
    assert forall id :: id in rank ==> id in all;
  }

  /** SELECT id ... WHERE time < cutoff ORDER BY id LIMIT BATCH */
  method SelectBatch(rows: Events, cutoff: int) returns (ids: seq<nat>)
    ensures forall i :: 0 <= i < |ids| ==> ids[i] in ExpiredIds(rows, cutoff)
    ensures forall i, j :: 0 <= i < j < |ids| ==> ids[i] < ids[j]
    ensures |ids| == Min(5000, |ExpiredIds(rows, cutoff)|)
    ensures forall i, id :: 0 <= i < |ids| && id in ExpiredIds(rows, cutoff) && id !in ids ==> ids[i] < id
  {
    var all := ExpiredInOrder(rows, cutoff);
    DistinctSize(all);
    var n := if |all| < BATCH then |all| else BATCH;
    ids := all[..n];
    forall i | 0 <= i < |ids| ensures ids[i] in ExpiredIds(rows, cutoff) {
      assert all[i] in SetOf(all);
    }
    FrontIsSmallest(all, n);
    assert forall id :: id in ExpiredIds(rows, cutoff) ==> id in SetOf(all);
  }

  /** In an increasing listing whatever is not in the front part comes after all of it. */
  lemma FrontIsSmallest(all: seq<nat>, n: nat)
    requires n <= |all| && forall i, j :: 0 <= i < j < |all| ==> all[i] < all[j]
    ensures forall i, id :: 0 <= i < n && id in all && id !in all[..n] ==> all[i] < id
  {
  }

  lemma FullBatchShrinks(rows: Events, cutoff: int, ids: seq<nat>, rows': Events)
    requires forall i :: 0 <= i < |ids| ==> ids[i] in ExpiredIds(rows, cutoff)
    requires forall i, j :: 0 <= i < j < |ids| ==> ids[i] < ids[j]
    requires ExpiredIds(rows', cutoff) <= ExpiredIds(rows, cutoff) - SetOf(ids)
    ensures |ExpiredIds(rows', cutoff)| <= |ExpiredIds(rows, cutoff)| - |ids|
  {
    var gone := SetOf(ids);
    DistinctSize(ids);
    SubsetSize(gone, ExpiredIds(rows, cutoff));
    SubsetSize(ExpiredIds(rows', cutoff), ExpiredIds(rows, cutoff) - gone);
  }

  /** What a batch leaves of the expired events: none if it was not full, else fewer by its size. */
  lemma BatchLeaves(was: Events, scanned: Events, cutoff: int, ids: seq<nat>, rows': Events)
    requires ExpiredIds(scanned, cutoff) <= ExpiredIds(was, cutoff)
    requires forall i :: 0 <= i < |ids| ==> ids[i] in ExpiredIds(scanned, cutoff)
    requires forall i, j :: 0 <= i < j < |ids| ==> ids[i] < ids[j]
    requires |ids| == Min(BATCH, |ExpiredIds(scanned, cutoff)|)
    requires ExpiredIds(rows', cutoff) <= ExpiredIds(scanned, cutoff) - SetOf(ids)
    ensures if |ids| < BATCH then ExpiredIds(rows', cutoff) == {}
            else |ExpiredIds(rows', cutoff)| <= |ExpiredIds(was, cutoff)| - BATCH
  {
    SubsetSize(ExpiredIds(scanned, cutoff), ExpiredIds(was, cutoff));
    FullBatchShrinks(scanned, cutoff, ids, rows');
  }

  ghost predicate FreshGap(g: Gap, cutoff: int) {
    forall i :: 0 <= i < |g.arrivals| ==> cutoff <= g.arrivals[i]
  }

  /** No event older than the cutoff arrives while the sweep runs. */
  ghost predicate Fresh(gaps: nat -> Gap, cutoff: int) {
    forall n: nat :: FreshGap(gaps(n), cutoff)
  }

  /**
   * One round of the sweep: what others do, the select, what others do, the delete by key. `hit` is what
   * the delete removed and `others` what the others did; every event is in exactly one of the table, `hit`
   * and `others` afterwards.
   */
  method PruneBatch(t: EventTable, cutoff: int, before: Gap, between: Gap)
    returns (found: nat, count: nat, ghost hit: set<nat>, ghost others: set<nat>)
    requires t.Valid()
    modifies t
    ensures t.Valid()
    ensures forall id :: id in old(t.ever) ==> id in t.ever && t.ever[id] == old(t.ever)[id]
    ensures forall id :: id in t.ever && id !in old(t.ever) ==>
              t.ever[id] in before.arrivals || t.ever[id] in between.arrivals
    ensures forall id :: id in t.rows ==> id in old(t.rows) || id !in old(t.ever)
    ensures forall id :: id in hit ==> id in t.ever && t.ever[id] < cutoff
    ensures forall id :: id in hit || id in others ==> id !in t.rows && (id in old(t.rows) || id !in old(t.ever))
    ensures forall id :: id in others ==> id in t.ever && (id in before.swept || id in between.swept)
    ensures forall id :: id in old(t.rows) || (id in t.ever && id !in old(t.ever)) ==>
              id in t.rows || id in hit || id in others
    ensures hit !! others
    ensures count == |hit| && found <= BATCH
    ensures FreshGap(before, cutoff) && FreshGap(between, cutoff) ==>
              if found < BATCH then ExpiredIds(t.rows, cutoff) == {}
              else |ExpiredIds(t.rows, cutoff)| <= |ExpiredIds(old(t.rows), cutoff)| - BATCH
  {
    others := t.Interfere(before);
    ghost var scanned := t.rows;
    ghost var noneArrive := FreshGap(before, cutoff) && FreshGap(between, cutoff);
    var ids := SelectBatch(t.rows, cutoff);
    found := |ids|;
    if found == 0 {
      return 0, 0, {}, others;
    }
    ghost var taken := t.Interfere(between);
    others := others + taken;
    var gone := set id | id in ids && id in t.rows;
    t.rows := t.rows - gone;
    hit, count := gone, |gone|;
    if noneArrive {
      BatchLeaves(old(t.rows), scanned, cutoff, ids, t.rows);
    }
  }

  /**
   * The sweep. gaps(2i) and gaps(2i + 1) are what others do before the select and before the delete
   * of batch i, and `others` what they deleted. Whatever they do, the call removes only events older
   * than the cutoff, reports exactly how many it removed itself, and loses none; and it leaves no older
   * event behind when none arrive meanwhile and there were at most BATCH * MAX_BATCHES of them.
   */
  method Prune(t: EventTable, retention: int, now: Time, gaps: nat -> Gap)
    returns (deleted: nat, ghost removed: set<nat>, ghost others: set<nat>)
    requires t.Valid()
    modifies t
    ensures t.Valid()
    ensures retention <= 0 ==> deleted == 0 && t.rows == old(t.rows)
    ensures forall id :: id in old(t.ever) ==> id in t.ever && t.ever[id] == old(t.ever)[id]
    ensures forall id :: id in t.ever && id !in old(t.ever) ==> exists n: nat :: t.ever[id] in gaps(n).arrivals
    ensures forall id :: id in t.rows ==> id in old(t.rows) || id !in old(t.ever)
    ensures deleted == |removed|
    ensures forall id :: id in removed ==> id in t.ever && t.ever[id] < now - retention
    ensures forall id :: id in removed || id in others ==> id !in t.rows && (id in old(t.rows) || id !in old(t.ever))
    ensures forall id :: id in others ==> id in t.ever && exists n: nat :: id in gaps(n).swept
    ensures forall id :: id in old(t.rows) || (id in t.ever && id !in old(t.ever)) ==>
              id in t.rows || id in removed || id in others
    ensures removed !! others
    ensures retention > 0 && Fresh(gaps, now - retention)
            && |set id | id in old(t.rows) && old(t.rows)[id] < now - retention| <= 5_000_000 ==>
              forall id :: id in t.rows ==> now - retention <= t.rows[id]
  {
    deleted, removed, others := 0, {}, {};
    if retention <= 0 {
      return;
    }
    var cutoff := now - retention;
    var i := 0;
    ExpiredAreOlder(t.rows, cutoff);
    ghost var bounded := Fresh(gaps, cutoff) && |ExpiredIds(t.rows, cutoff)| <= BATCH * MAX_BATCHES;
    while i < MAX_BATCHES
      invariant 0 <= i <= MAX_BATCHES && t.Valid()
      invariant deleted == |removed|
      invariant forall id :: id in old(t.ever) ==> id in t.ever && t.ever[id] == old(t.ever)[id]
      invariant forall id :: id in t.ever && id !in old(t.ever) ==> exists n: nat :: t.ever[id] in gaps(n).arrivals
      invariant forall id :: id in t.rows ==> id in old(t.rows) || id !in old(t.ever)
      invariant forall id :: id in removed ==> id in t.ever && t.ever[id] < cutoff
      invariant forall id :: id in removed || id in others ==>
                  id !in t.rows && (id in old(t.rows) || id !in old(t.ever))
      invariant forall id :: id in others ==> id in t.ever && exists n: nat :: id in gaps(n).swept
      invariant forall id :: id in old(t.rows) || (id in t.ever && id !in old(t.ever)) ==>
                  id in t.rows || id in removed || id in others
      invariant removed !! others
      invariant bounded ==> |ExpiredIds(t.rows, cutoff)| <= BATCH * (MAX_BATCHES - i)
    {
      assert bounded ==> FreshGap(gaps(2 * i), cutoff) && FreshGap(gaps(2 * i + 1), cutoff);
      ghost var hit, taken;
      var found, n;
      found, n, hit, taken := PruneBatch(t, cutoff, gaps(2 * i), gaps(2 * i + 1));
      assert removed !! hit;
      others := others + taken;
      deleted := deleted + n;
      removed := removed + hit;
      if found < BATCH {
        break;
      }
      i := i + 1;
    }
    assert bounded ==> ExpiredIds(t.rows, cutoff) == {};
    ExpiredAreOlder(t.rows, cutoff);
  }
}
