/**
 * What the replay set and the proceed-token store have in common: entries with an expiry, a cap,
 * and the same way of making room when the cap is reached.
 */
module ExpiringStore {
  import opened Common
  import opened Eviction

  const CAP: nat := 50000
  const TARGET: nat := CAP * 9 / 10

  type Expiries = map<string, Time>

  /** now.After(exp) is false: at the instant of expiry an entry is still there. */
  function Live(e: Expiries, now: Time): Expiries {
    map k | k in e && now <= e[k] :: e[k]
  }

  /** What an insertion keeps: everything below the cap, else the live entries, else the latest-expiring. */
  ghost predicate MadeRoom(e: Expiries, now: Time, kept: set<string>) {
    var live := Live(e, now);
    if |e| < CAP then kept == e.Keys
    else if |live| < CAP then kept == live.Keys
    else |kept| == TARGET && kept <= live.Keys && EarliestDropped(live, kept)
  }

  ghost predicate EarliestDropped(live: Expiries, kept: set<string>)
    requires kept <= live.Keys
  {
    forall d, k :: d in live && d !in kept && k in kept ==> live[d] <= live[k]
  }

  /** The entries that were still live and went all the same. */
  ghost function Dropped(e: Expiries, now: Time, kept: set<string>): set<string> {
    Live(e, now).Keys - kept
  }

  method MakeRoom(e: Expiries, now: Time) returns (kept: set<string>)
    ensures MadeRoom(e, now, kept)
  {
    if |e| < CAP {
      return e.Keys;
    }
    var live := DropExpired(e, now);
    if |live| < CAP {
      return live.Keys;
    }
    kept := KeepLatest(live, TARGET);
  }

  /** The prune loop, which is also the body of both sweeps. */
  method DropExpired(e: Expiries, now: Time) returns (live: Expiries)
    ensures live == Live(e, now)
  {
    live := e;
    var todo := e.Keys;
    while todo != {}
      invariant todo <= e.Keys
      invariant live.Keys <= e.Keys
      invariant forall k :: k in live ==> live[k] == e[k] && (k in todo || now <= e[k])
      invariant forall k :: k in e && (k in todo || now <= e[k]) ==> k in live
      decreases todo
    {
      var k :| k in todo;
      if now > live[k] {
        live := live - {k};
      }
      todo := todo - {k};
    }
  }

  /** Room was made within the cap, and nothing expired or live was invented. */
  lemma RoomIsWithinCap(e: Expiries, now: Time, kept: set<string>)
    requires MadeRoom(e, now, kept) && |e| <= CAP
    ensures |kept| < CAP && kept <= e.Keys
  {
    if |e| < CAP {
      assert |e.Keys| == |e|;
    } else if |Live(e, now)| < CAP {
      assert |Live(e, now).Keys| == |Live(e, now)|;
    }
  }

  /** So inserting one entry afterwards stays within the cap as well. */
  lemma InsertFits(e: Expiries, now: Time, kept: set<string>, k: string)
    requires MadeRoom(e, now, kept) && |e| <= CAP
    ensures |kept + {k}| <= CAP && kept <= e.Keys
  {
    RoomIsWithinCap(e, now, kept);
    if k in kept {
      assert kept + {k} == kept;
    }
  }

  /** An entry that had not expired is gone only if it was dropped for capacity. */
  lemma LiveEntryStays(e: Expiries, now: Time, kept: set<string>, k: string)
    requires MadeRoom(e, now, kept) && k in e && now <= e[k] && k !in Dropped(e, now, kept)
    ensures k in kept
  {
  }

  /** Capacity drops the earliest expiries first. */
  lemma EarliestExpiriesGoFirst(e: Expiries, now: Time, kept: set<string>, gone: string, stays: string)
    requires MadeRoom(e, now, kept) && gone in Dropped(e, now, kept) && stays in kept
    ensures stays in e && gone in e && e[gone] <= e[stays]
  {
  }

  /** Nothing live is dropped while there are fewer than 50000 entries, or fewer once the expired ones are gone. */
  lemma NothingDroppedBelowCap(e: Expiries, now: Time, kept: set<string>)
    requires MadeRoom(e, now, kept) && (|e| < 50_000 || |Live(e, now)| < 50_000)
    ensures Dropped(e, now, kept) == {}
  {
  }

  /** Dropping for capacity leaves nine tenths. */
  lemma DroppingLeavesNineTenths(e: Expiries, now: Time, kept: set<string>)
    requires MadeRoom(e, now, kept) && Dropped(e, now, kept) != {}
    ensures |kept| == 45_000
  {
  }

}
