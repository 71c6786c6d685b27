/**
 * The opaque tokens of /auth/proceed (portal/auth_proceed.go): single use, bound to the session
 * that asked for them, short-lived and bounded in number.
 */
module ProceedTokens {
  import opened Common
  import opened ExpiringStore

  datatype Entry = Entry(url: string, sessionState: string, email: string, expires: Time)

  type Entries = map<string, Entry>

  function ExpiryOf(e: Entries): Expiries {
    map k | k in e :: e[k].expires
  }

  function Restrict(e: Entries, kept: set<string>): Entries {
    map k | k in e && k in kept :: e[k]
  }

  function LiveEntries(e: Entries, now: Time): Entries {
    map k | k in e && now <= e[k].expires :: e[k]
  }

  /** The store after a put; `dropped` are live entries that went for capacity. */
  ghost predicate PutIn(e: Entries, tok: string, entry: Entry, evictNow: Time, dropped: set<string>, e': Entries) {
    exists kept :: MadeRoom(ExpiryOf(e), evictNow, kept) && dropped == Dropped(ExpiryOf(e), evictNow, kept)
      && e' == Restrict(e, kept)[tok := entry]
  }

  /** take: the token is gone whatever it yields. */
  function Take(e: Entries, tok: string, now: Time): (Entries, Option<Entry>) {
    if tok !in e then (e, None)
    else (e - {tok}, if now > e[tok].expires then None else Some(e[tok]))
  }

  datatype Response = Redirect(url: string) | Expired | Mismatch

  class TokenStore {
    var entries: Entries
    const ttl: nat

    constructor (ttl: nat)
      ensures entries == map[] && this.ttl == ttl
    {
      entries := map[];
      this.ttl := ttl;
    }

    /** `tok` is the fresh random token; the clock is read once to make room and once for the expiry. */
    method Put(tok: string, url: string, sessionState: string, email: string, evictNow: Time, now: Time)
      returns (ghost dropped: set<string>)
      modifies this
      ensures PutIn(old(entries), tok, Entry(url, sessionState, email, now + ttl), evictNow, dropped, entries)
    {
      var exp := ExpiryOf(entries);
      var kept := MakeRoom(exp, evictNow);
      dropped := Dropped(exp, evictNow, kept);
      entries := Restrict(entries, kept)[tok := Entry(url, sessionState, email, now + ttl)];
    }

    method TakeToken(tok: string, now: Time) returns (r: Option<Entry>)
      modifies this
      ensures (entries, r) == Take(old(entries), tok, now)
    {
      if tok !in entries {
        return None;
      }
      var e := entries[tok];
      entries := entries - {tok};
      if now > e.expires {
        return None;
      }
      r := Some(e);
    }

    method Collect(now: Time)
      modifies this
      ensures entries == LiveEntries(old(entries), now)
    {
      var live := DropExpired(ExpiryOf(entries), now);
      entries := Restrict(entries, live.Keys);
    }

    /**
     * The token part of handleAuthProceed. A redirect goes to the stored URL and only when the stored
     * session state is the caller's; a mismatch consumes the token too.
     */
    method Proceed(sessionState: string, tok: string, now: Time) returns (r: Response)
      modifies this
      ensures r.Redirect? ==>
                && tok in old(entries) && now <= old(entries)[tok].expires
                && old(entries)[tok].sessionState == sessionState && r.url == old(entries)[tok].url
      ensures r.Mismatch? ==> tok in old(entries) && old(entries)[tok].sessionState != sessionState
      ensures r.Expired? <==> tok == "" || Take(old(entries), tok, now).1.None?
      ensures entries == if tok == "" then old(entries) else old(entries) - {tok}
    {
      if tok == "" {
        return Expired;
      }
      var entry := TakeToken(tok, now);
      if entry.None? {
        assert tok !in old(entries) ==> old(entries) - {tok} == old(entries);
        return Expired;
      }
      if entry.value.sessionState != sessionState {
        return Mismatch;
      }
      r := Redirect(entry.value.url);
    }
  }

  // ----- runs -----

  datatype Op =
    | PutOp(tok: string, entry: Entry, evictNow: Time, dropped: set<string>)
    | TakeOp(tok: string, now: Time, result: Option<Entry>)
    | CollectOp(now: Time)

  ghost predicate Next(e: Entries, op: Op, e': Entries) {
    match op
    case PutOp(tok, entry, evictNow, dropped) => PutIn(e, tok, entry, evictNow, dropped, e')
    case TakeOp(tok, now, result) => (e', result) == Take(e, tok, now)
    case CollectOp(now) => e' == LiveEntries(e, now)
  }

  ghost predicate StepAt(states: seq<Entries>, ops: seq<Op>, i: nat)
    requires i < |ops| < |states|
  {
    Next(states[i], ops[i], states[i + 1])
  }

  /** Tokens are random, so no token is ever issued twice. */
  ghost predicate Run(states: seq<Entries>, ops: seq<Op>) {
    && |states| == |ops| + 1 && states[0] == map[]
    && (forall i :: 0 <= i < |ops| ==> StepAt(states, ops, i))
    && (forall i, j :: 0 <= i < j < |ops| && ops[i].PutOp? && ops[j].PutOp? ==> ops[i].tok != ops[j].tok)
  }

  /** What was put under a token that has not been taken since. */
  function Outstanding(ops: seq<Op>, tok: string): Option<Entry> {
    if ops == [] then None
    else
      match ops[|ops| - 1]
      case PutOp(t, entry, _, _) => if t == tok then Some(entry) else Outstanding(ops[..|ops| - 1], tok)
      case TakeOp(t, _, _) => if t == tok then None else Outstanding(ops[..|ops| - 1], tok)
      case CollectOp(_) => Outstanding(ops[..|ops| - 1], tok)
  }

  lemma StepHoldsOutstanding(e: Entries, op: Op, e': Entries, ops: seq<Op>, tok: string)
    requires Next(e, op, e') && tok in e' && (tok in e ==> Outstanding(ops, tok) == Some(e[tok]))
    ensures Outstanding(ops + [op], tok) == Some(e'[tok])
  {
    assert (ops + [op])[..|ops|] == ops;
  }

  /** The store only ever holds what was put and not yet taken. */
  lemma {:induction false} HoldsOutstanding(states: seq<Entries>, ops: seq<Op>, n: nat, tok: string)
    requires Run(states, ops) && n <= |ops| && tok in states[n]
    ensures Outstanding(ops[..n], tok) == Some(states[n][tok])
  {
    if n > 0 {
      if tok in states[n - 1] {
        HoldsOutstanding(states, ops, n - 1, tok);
      }
      assert StepAt(states, ops, n - 1);
      StepHoldsOutstanding(states[n - 1], ops[n - 1], states[n], ops[..n - 1], tok);
      assert ops[..n - 1] + [ops[n - 1]] == ops[..n];
    }
  }

  lemma {:induction false} OutstandingWasPut(ops: seq<Op>, tok: string) returns (p: nat)
    requires Outstanding(ops, tok).Some?
    ensures p < |ops| && ops[p].PutOp? && ops[p].tok == tok && ops[p].entry == Outstanding(ops, tok).value
    ensures forall k :: p < k < |ops| && ops[k].TakeOp? ==> ops[k].tok != tok
  {
    var last := ops[|ops| - 1];
    if last.PutOp? && last.tok == tok {
      p := |ops| - 1;
    } else {
      p := OutstandingWasPut(ops[..|ops| - 1], tok);
    }
  }

  /** A take yields exactly the entry that was put under its token, and never after the entry's expiry. */
  lemma TakeYieldsWhatWasPut(states: seq<Entries>, ops: seq<Op>, n: nat) returns (p: nat)
    requires Run(states, ops) && n < |ops| && ops[n].TakeOp? && ops[n].result.Some?
    ensures p < n && ops[p].PutOp? && ops[p].tok == ops[n].tok && ops[p].entry == ops[n].result.value
    ensures ops[n].now <= ops[p].entry.expires
    ensures forall k :: p < k < n && ops[k].TakeOp? ==> ops[k].tok != ops[n].tok
  {
    assert StepAt(states, ops, n);
    HoldsOutstanding(states, ops, n, ops[n].tok);
    p := OutstandingWasPut(ops[..n], ops[n].tok);
  }

  /** Over every run, each token yields its entry at most once. */
  lemma TokenIsSingleUse(states: seq<Entries>, ops: seq<Op>, i: nat, j: nat)
    requires Run(states, ops) && i < j < |ops| && ops[i].TakeOp? && ops[j].TakeOp? && ops[i].tok == ops[j].tok
    requires ops[i].result.Some?
    ensures ops[j].result.None?
  {
    if ops[j].result.Some? {
      var p := TakeYieldsWhatWasPut(states, ops, i);
      var q := TakeYieldsWhatWasPut(states, ops, j);
    }
  }

  lemma SameSize(e: Entries)
    ensures ExpiryOf(e).Keys == e.Keys && |ExpiryOf(e)| == |e|
  {
    assert ExpiryOf(e).Keys == e.Keys;
    assert |ExpiryOf(e).Keys| == |ExpiryOf(e)|;
  }

  lemma RestrictedKeys(e: Entries, kept: set<string>, tok: string, entry: Entry)
    requires kept <= e.Keys
    ensures Restrict(e, kept)[tok := entry].Keys == kept + {tok}
  {
    assert Restrict(e, kept).Keys == kept;
  }

  lemma PutStaysWithinCap(e: Entries, tok: string, entry: Entry, evictNow: Time, dropped: set<string>, e': Entries)
    requires |e| <= CAP && PutIn(e, tok, entry, evictNow, dropped, e')
    ensures |e'| <= CAP
  {
    var kept :| MadeRoom(ExpiryOf(e), evictNow, kept) && e' == Restrict(e, kept)[tok := entry];
    SameSize(e);
    InsertFits(ExpiryOf(e), evictNow, kept, tok);
    RestrictedKeys(e, kept, tok, entry);
  }

  lemma {:induction false} StoreStaysWithinCap(states: seq<Entries>, ops: seq<Op>, n: nat)
    requires Run(states, ops) && n <= |ops|
    ensures |states[n]| <= 50_000
  {
    if n > 0 {
      StoreStaysWithinCap(states, ops, n - 1);
      assert StepAt(states, ops, n - 1);
      var op := ops[n - 1];
      if op.PutOp? {
        PutStaysWithinCap(states[n - 1], op.tok, op.entry, op.evictNow, op.dropped, states[n]);
      } else {
        SubsetSize(states[n].Keys, states[n - 1].Keys);
      }
    }
  }

  /** When a put makes room, no token it drops would have outlived one it keeps. */
  lemma PutDropsEarliest(e: Entries, tok: string, entry: Entry, evictNow: Time, dropped: set<string>, e': Entries,
                         gone: string, stays: string)
    requires PutIn(e, tok, entry, evictNow, dropped, e') && gone in dropped && stays in e' && stays != tok
    ensures gone in e && stays in e && e[gone].expires <= e[stays].expires
  {
    var kept :| MadeRoom(ExpiryOf(e), evictNow, kept) && dropped == Dropped(ExpiryOf(e), evictNow, kept)
      && e' == Restrict(e, kept)[tok := entry];
    EarliestExpiriesGoFirst(ExpiryOf(e), evictNow, kept, gone, stays);
  }

  // ----- a token that should work does -----

  /** The operation neither takes the token, drops it for capacity, nor runs after its entry's expiry. */
  predicate LeavesAlone(op: Op, tok: string, expires: Time) {
    match op
    case PutOp(_, _, evictNow, dropped) => tok !in dropped && evictNow <= expires
    case TakeOp(t, _, _) => t != tok
    case CollectOp(now) => now <= expires
  }

  lemma StepKeepsToken(e: Entries, op: Op, e': Entries, tok: string, entry: Entry)
    requires Next(e, op, e') && tok in e && e[tok] == entry && LeavesAlone(op, tok, entry.expires)
    requires op.PutOp? ==> op.tok != tok
    ensures tok in e' && e'[tok] == entry
  {
    if op.PutOp? {
      var kept :| MadeRoom(ExpiryOf(e), op.evictNow, kept) && op.dropped == Dropped(ExpiryOf(e), op.evictNow, kept)
        && e' == Restrict(e, kept)[op.tok := op.entry];
      LiveEntryStays(ExpiryOf(e), op.evictNow, kept, tok);
    }
  }

  lemma {:induction false} TokenStays(states: seq<Entries>, ops: seq<Op>, p: nat, n: nat)
    requires Run(states, ops) && p < n <= |ops| && ops[p].PutOp?
    requires forall k :: p < k < n ==> LeavesAlone(ops[k], ops[p].tok, ops[p].entry.expires)
    ensures ops[p].tok in states[n] && states[n][ops[p].tok] == ops[p].entry
  {
    assert StepAt(states, ops, n - 1);
    if n > p + 1 {
      TokenStays(states, ops, p, n - 1);
      StepKeepsToken(states[n - 1], ops[n - 1], states[n], ops[p].tok, ops[p].entry);
    }
  }

  /** The first take of a token, no later than its expiry, yields its entry unless it was dropped for capacity. */
  lemma LiveTokenIsHonoured(states: seq<Entries>, ops: seq<Op>, p: nat, n: nat)
    requires Run(states, ops) && p < n < |ops| && ops[p].PutOp?
    requires forall k :: p < k < n ==> LeavesAlone(ops[k], ops[p].tok, ops[p].entry.expires)
    requires ops[n].TakeOp? && ops[n].tok == ops[p].tok && ops[n].now <= ops[p].entry.expires
    ensures ops[n].result == Some(ops[p].entry)
  {
    TokenStays(states, ops, p, n);
    assert StepAt(states, ops, n);
  }

}
