/**
 * "Usable" is spelled five times: in the SQL status filters, in Stats, in ActiveCount, in the
 * domain predicate IsActive and in Validate. This module proves that the five agree, and that
 * the bulk delete built on the same notion cannot be noticed by anyone redeeming.
 */
module GuestCodeQueries {
  import opened Common
  import opened GuestCodes

  datatype Status = ExpiredCodes | UsedCodes | UnusedCodes

  // ----- the SQL side -----

  predicate SqlExhausted(db: Db, row: Row) {
    row.maxUses > 0 && row.maxUses <= CountUses(db.uses, row.code)
  }

  /** codeStatusWhere */
  predicate StatusWhere(db: Db, row: Row, status: Status, now: Time) {
    match status
    case ExpiredCodes => row.expires.Some? && row.expires.value < now
    case UsedCodes => (row.expires.None? || row.expires.value >= now) && SqlExhausted(db, row)
    case UnusedCodes => (row.expires.None? || row.expires.value >= now) && !SqlExhausted(db, row)
  }

  function Matching(db: Db, status: Status, now: Time): set<string> {
    set k | k in db.codes && StatusWhere(db, db.codes[k], status, now)
  }

  /** The admin header's counters; `unused` is a difference, clamped at zero. */
  method Stats(store: Store, now: Time) returns (total: nat, used: nat, unused: nat, expired: nat)
    ensures total == |store.db.codes|
    ensures expired == |Matching(store.db, ExpiredCodes, now)|
    ensures used == |Matching(store.db, UsedCodes, now)|
    ensures unused == |Matching(store.db, UnusedCodes, now)|
  {
    total := |store.db.codes|;
    expired := |Matching(store.db, ExpiredCodes, now)|;
    used := |Matching(store.db, UsedCodes, now)|;
    var rest := total - expired - used;
    StatusesPartition(store.db, now);
    if rest < 0 {
      rest := 0;
    }
    unused := rest;
  }

  method ActiveCount(store: Store, now: Time) returns (n: nat)
    requires Valid(store.db)
    ensures n == |DomainActive(store.db, now)| == |Redeemable(store.db, now)|
  {
    n := |Matching(store.db, UnusedCodes, now)|;
    ActiveIsRedeemable(store.db, now);
  }

  /** On any snapshot the three filters split the table, so the clamp in Stats never fires. */
  lemma StatusesPartition(db: Db, now: Time)
    ensures Matching(db, ExpiredCodes, now) !! Matching(db, UsedCodes, now)
    ensures Matching(db, ExpiredCodes, now) !! Matching(db, UnusedCodes, now)
    ensures Matching(db, UsedCodes, now) !! Matching(db, UnusedCodes, now)
    ensures db.codes.Keys ==
            Matching(db, ExpiredCodes, now) + Matching(db, UsedCodes, now) + Matching(db, UnusedCodes, now)
    ensures |Matching(db, UnusedCodes, now)| ==
            |db.codes| - |Matching(db, ExpiredCodes, now)| - |Matching(db, UsedCodes, now)|
  {
    var e, u, a := Matching(db, ExpiredCodes, now), Matching(db, UsedCodes, now), Matching(db, UnusedCodes, now);
    assert e + u + a == db.codes.Keys;
    assert e !! u && (e + u) !! a;
    assert |db.codes.Keys| == |e + u| + |a|;
  }

  // ----- the Go side -----

  function DomainActive(db: Db, now: Time): set<string> {
    set k | k in db.codes && Loaded(db, k).IsActive(now)
  }

  /** The codes on which an attempt at this instant would succeed. */
  function Redeemable(db: Db, now: Time): set<string> {
    set k | k in db.codes && Redeem(db, k, now, now, "", "", "").1.Some?
  }

  lemma CodeIsActive(db: Db, key: string, now: Time)
    requires Valid(db) && key in db.codes
    ensures Loaded(db, key).IsActive(now) <==> StatusWhere(db, db.codes[key], UnusedCodes, now)
    ensures StatusWhere(db, db.codes[key], UnusedCodes, now) <==> Usable(db, key, now)
    ensures SqlInactive(db, key, now) <==> !Usable(db, key, now)
  {
    UsesOfCount(db.uses, db.codes[key].code);
  }

  /** ActiveCount counts the codes Go calls active, and those are the codes that can be redeemed. */
  lemma ActiveIsRedeemable(db: Db, now: Time)
    requires Valid(db)
    ensures Matching(db, UnusedCodes, now) == DomainActive(db, now) == Redeemable(db, now)
  {
    forall k | k in db.codes
      ensures k in Matching(db, UnusedCodes, now) <==> k in DomainActive(db, now)
      ensures k in DomainActive(db, now) <==> k in Redeemable(db, now)
    {
      CodeIsActive(db, k, now);
    }
  }

  // ----- the bulk delete -----

  /** A request to redeem, with the two clock readings it will take. */
  datatype Call = Call(code: string, mac: string, ip: string, upn: string, check: Time, at: Time)

  function Answer(db: Db, c: Call): (Db, Option<GuestCode>) {
    Redeem(db, NormalizeCode(c.code), c.check, c.at, c.mac, c.ip, c.upn)
  }

  /** The answers of a sequence of redemptions. */
  function Answers(db: Db, calls: seq<Call>): seq<Option<GuestCode>>
    decreases |calls|
  {
    if calls == [] then []
    else [Answer(db, calls[0]).1] + Answers(Answer(db, calls[0]).0, calls[1..])
  }

  ghost predicate Nondecreasing(calls: seq<Call>, from: Time) {
    && (forall i :: 0 <= i < |calls| ==> from <= calls[i].check)
    && (forall i, j :: 0 <= i < j < |calls| ==> calls[i].check <= calls[j].check)
  }

  /** `small` is `db` without some codes that can never be redeemed again. */
  ghost predicate WithoutDeadCodes(db: Db, small: Db, now: Time) {
    && (forall k :: k in small.codes ==>
          && k in db.codes && small.codes[k] == db.codes[k]
          && UsesOf(small.uses, db.codes[k].code) == UsesOf(db.uses, db.codes[k].code))
    && (forall k :: k in db.codes && k !in small.codes ==> !Usable(db, k, now))
  }

  lemma SameUses(db: Db, small: Db, code: string)
    requires UsesOf(small.uses, code) == UsesOf(db.uses, code)
    ensures CountUses(small.uses, code) == CountUses(db.uses, code)
  {
    UsesOfCount(small.uses, code);
    UsesOfCount(db.uses, code);
  }

  /** A code that is dead stays dead as time passes and other codes are redeemed. */
  lemma DeadStaysDead(db: Db, key: string, c: Call, now: Time)
    requires Valid(db) && key in db.codes && !Usable(db, key, now) && now <= c.check
    ensures !Usable(db, key, c.check)
    ensures !Usable(Answer(db, c).0, key, c.check)
  {
    var code := db.codes[key].code;
    var k := NormalizeCode(c.code);
    if Usable(db, k, c.check) {
      AppendUse(db.uses, Use(db.codes[k].code, c.at, c.mac, c.ip, c.upn), code);
    }
  }

  /** One redemption cannot tell the two tables apart, and keeps them indistinguishable. */
  lemma CallCannotTell(db: Db, small: Db, c: Call, now: Time)
    requires Valid(db) && Valid(small) && WithoutDeadCodes(db, small, now) && now <= c.check
    ensures Answer(db, c).1 == Answer(small, c).1
    ensures WithoutDeadCodes(Answer(db, c).0, Answer(small, c).0, c.check)
  {
    var k := NormalizeCode(c.code);
    var db', small' := Answer(db, c).0, Answer(small, c).0;
    if k in small.codes {
      SameUses(db, small, db.codes[k].code);
    } else if k in db.codes {
      DeadStaysDead(db, k, c, now);
    }
    forall j | j in small'.codes
      ensures UsesOf(small'.uses, db.codes[j].code) == UsesOf(db'.uses, db.codes[j].code)
    {
      if Usable(db, k, c.check) {
        var use := Use(db.codes[k].code, c.at, c.mac, c.ip, c.upn);
        AppendUse(db.uses, use, db.codes[j].code);
        AppendUse(small.uses, use, db.codes[j].code);
      }
    }
    forall j | j in db'.codes && j !in small'.codes ensures !Usable(db', j, c.check) {
      DeadStaysDead(db, j, c, now);
    }
  }

  lemma {:induction false} CallsCannotTell(db: Db, small: Db, calls: seq<Call>, now: Time)
    requires Valid(db) && Valid(small) && WithoutDeadCodes(db, small, now) && Nondecreasing(calls, now)
    ensures Answers(db, calls) == Answers(small, calls)
    decreases |calls|
  {
    if calls != [] {
      var c := calls[0];
      CallCannotTell(db, small, c, now);
      RedeemKeepsValid(db, NormalizeCode(c.code), c.check, c.at, c.mac, c.ip, c.upn);
      RedeemKeepsValid(small, NormalizeCode(c.code), c.check, c.at, c.mac, c.ip, c.upn);
      CallsCannotTell(Answer(db, c).0, Answer(small, c).0, calls[1..], c.check);
    }
  }

  /**
   * DeleteInactive is unobservable to redemption: every later sequence of attempts, under a clock
   * that does not run backwards, gets the same answers whether or not the delete ran.
   */
  lemma PurgeIsUnobservable(db: Db, now: Time, calls: seq<Call>)
    requires Valid(db) && Nondecreasing(calls, now)
    ensures Answers(Remove(db, Inactive(db, now)), calls) == Answers(db, calls)
  {
    var dead := Inactive(db, now);
    var small := Remove(db, dead);
    RemoveKeepsValid(db, dead);
    forall k | k in small.codes
      ensures UsesOf(small.uses, db.codes[k].code) == UsesOf(db.uses, db.codes[k].code)
    {
      RemoveKeepsOthers(db, dead, k);
    }
    CallsCannotTell(db, small, calls, now);
  }

  /** ... and it removes a code exactly when the code is dead: a partly used one stays, history and all. */
  lemma PurgeKeepsExactlyTheUsable(db: Db, now: Time, key: string)
    requires Valid(db) && key in db.codes
    ensures key in Remove(db, Inactive(db, now)).codes <==> Usable(db, key, now)
    ensures Usable(db, key, now) ==> Loaded(Remove(db, Inactive(db, now)), key) == Loaded(db, key)
  {
    CodeIsActive(db, key, now);
    if key !in Inactive(db, now) {
      RemoveKeepsOthers(db, Inactive(db, now), key);
    }
  }
}
