/**
 * IP cooldowns (portal/store_ipban.go): one shared table and, in every portal process, a
 * write-through cache of it that is reloaded once it is older than TTL.
 */
module IpBans {
  import opened Common
  import opened Eviction

  const TTL: nat := 2 * SECOND
  const MAX_CACHED: nat := 50000

  /** Expiry by IP: the ip_ban table, or a process's cache of it. */
  type Bans = map<string, Time>

  // ----- what the statements and the cache compute -----

  /** until > now */
  function Active(table: Bans, now: Time): Bans {
    map ip | ip in table && table[ip] > now :: table[ip]
  }

  /** What a refresh may load: the active rows, or the longest-lasting MAX_CACHED of them. */
  ghost predicate Loads(table: Bans, now: Time, rows: Bans) {
    var active := Active(table, now);
    && rows.Keys <= active.Keys
    && (forall ip :: ip in rows ==> rows[ip] == table[ip])
    && (|active| <= MAX_CACHED ==> rows == active)
    && |rows| <= MAX_CACHED
    && forall gone, ip :: gone in active && gone !in rows && ip in rows ==> table[gone] <= table[ip]
  }

  /** The later of the stored expiry, if any, and a new one: both the upsert and the cache write. */
  function Extended(bans: Bans, ip: string, until: Time): Bans {
    bans[ip := if ip in bans then Max(bans[ip], until) as Time else until]
  }

  /** expiryOf's test: the instant of expiry itself still counts as banned. */
  predicate Banned(bans: Bans, ip: string, now: Time) {
    ip in bans && now <= bans[ip]
  }

  predicate Stale(refreshed: Time, now: Time) {
    now - refreshed > TTL
  }

  /** What a read answers from: a reload if the cache was stale when its age was taken, else the cache. */
  ghost predicate Consults(table: Bans, cache: Bans, refreshed: Time, age: Time, query: Time, view: Bans) {
    if Stale(refreshed, age) then Loads(table, query, view) else view == cache
  }

  /** A read that finds the entry expired drops it from the cache. */
  function Forgotten(view: Bans, ip: string, now: Time): Bans {
    if ip in view && now > view[ip] then view - {ip} else view
  }

  // ----- one process -----

  /** The shared ip_ban table. */
  class Table {
    var rows: Bans

    constructor ()
      ensures rows == map[]
    {
      rows := map[];
    }
  }

  class BanList {
    const table: Table
    var cache: Bans
    var refreshed: Time
    var truncated: bool

    constructor (table: Table, query: Time, stamp: Time)
      ensures this.table == table && Loads(table.rows, query, cache) && refreshed == stamp
    {
      this.table := table;
      cache := map[];
      refreshed := 0;
      truncated := false;
      new;
      Refresh(query, stamp);
    }

    /** `query` is the instant of the SELECT, `stamp` the later one that is remembered. */
    method Refresh(query: Time, stamp: Time)
      modifies this
      ensures Loads(table.rows, query, cache) && refreshed == stamp
      ensures truncated == (|cache| >= 50_000)
    {
      var active := Active(table.rows, query);
      var kept := KeepLatest(active, MAX_CACHED);
      var next: Bans := map[];
      var todo := kept;
      while todo != {}
        invariant todo <= kept && next.Keys == kept - todo
        invariant forall ip :: ip in next ==> next[ip] == active[ip]
        decreases todo
      {
        var ip :| ip in todo;
        next := next[ip := active[ip]];
        todo := todo - {ip};
      }
      assert |next.Keys| == |kept|;
      if |active| <= MAX_CACHED {
        SubsetSize(kept, active.Keys);
        assert |active.Keys| == |active|;
      }
      cache := next;
      refreshed := stamp;
      truncated := |kept| >= MAX_CACHED;
    }

    method Ban(ip: string, d: int, now: Time)
      requires now + d >= 0
      modifies this`cache, table
      ensures table.rows == if ip == "" then old(table.rows) else Extended(old(table.rows), ip, now + d)
      ensures cache == if ip == "" then old(cache) else Extended(old(cache), ip, now + d)
    {
      if ip == "" {
        return;
      }
      var until := now + d;
      if ip in table.rows {
        table.rows := table.rows[ip := if table.rows[ip] > until then table.rows[ip] else until];
      } else {
        table.rows := table.rows[ip := until];
      }
      if ip !in cache || until > cache[ip] {
        cache := cache[ip := until];
      }
    }

    /**
     * expiryOf: `age` is the staleness reading, `query` and `stamp` are the refresh's if it runs,
     * `now` is the final comparison.
     */
    method ExpiryOf(ip: string, age: Time, query: Time, stamp: Time, now: Time) returns (r: Option<Time>)
      modifies this
      ensures if Stale(old(refreshed), age) then refreshed == stamp else refreshed == old(refreshed)
      ensures exists view :: Consults(table.rows, old(cache), old(refreshed), age, query, view)
                && r == (if Banned(view, ip, now) then Some(view[ip]) else None)
                && cache == Forgotten(view, ip, now)
    {
      if Stale(refreshed, age) {
        Refresh(query, stamp);
      }
      ghost var view := cache;
      assert Consults(table.rows, old(cache), old(refreshed), age, query, view);
      if ip !in cache {
        return None;
      }
      var exp := cache[ip];
      if now > exp {
        cache := cache - {ip};
        return None;
      }
      r := Some(exp);
    }

    method Unban(ip: string) returns (had: bool)
      modifies this`cache, table
      ensures table.rows == old(table.rows) - {ip} && cache == old(cache) - {ip}
      ensures had == (ip in old(table.rows) || ip in old(cache))
    {
      had := ip in table.rows || ip in cache;
      table.rows := table.rows - {ip};
      cache := cache - {ip};
    }

    method UnbanAll(count: Time, stamp: Time) returns (n: nat)
      modifies this, table
      ensures table.rows == map[] && cache == map[] && refreshed == stamp && n == |Active(old(table.rows), count)|
    {
      n := |Active(table.rows, count)|;
      table.rows := map[];
      cache := map[];
      refreshed := stamp;
    }

    /** The sweep: expired rows leave the table, then the view is reloaded. */
    method Sweep(now: Time, query: Time, stamp: Time)
      modifies this, table
      ensures table.rows == Active(old(table.rows), now)
      ensures Loads(table.rows, query, cache) && refreshed == stamp
    {
      table.rows := Active(table.rows, now);
      Refresh(query, stamp);
    }
  }

  // ----- the instant of expiry -----

  /**
   * The cache and a reload of the same rows disagree at exactly one instant: at its expiry a ban still counts
   * in the cache, but a reload no longer sees it.
   */
  lemma ReloadDisagreesExactlyAtExpiry(table: Bans, ip: string, now: Time)
    ensures Banned(table, ip, now) != Banned(Active(table, now), ip, now) <==> ip in table && table[ip] == now
  {
  }

  /** A ban only ever moves the expiry forward, and no other IP's. */
  lemma BanExtends(bans: Bans, ip: string, until: Time, other: string, t: Time)
    ensures Banned(Extended(bans, ip, until), other, t) <==> Banned(bans, other, t) || (other == ip && t <= until)
  {
  }

  /** A cache is trusted for two seconds, to the nanosecond. */
  lemma CacheIsTrustedForTwoSeconds(refreshed: Time, age: Time)
    ensures !Stale(refreshed, age) <==> age <= refreshed + 2_000_000_000
  {
  }

}
