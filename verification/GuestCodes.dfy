/**
 * Guest codes and their redemptions (portal/store_guestcode.go, portal/admin.go,
 * portal/internal/dbstore/models.go). The two tables are a map keyed by the lookup key
 * code_lower and a list of use rows; one SQL statement is one step.
 */
module GuestCodes {
  import opened Common

  // ----- rows -----

  /** A guest_code row. A missing expiry is SQL NULL: the code never expires. */
  datatype Row = Row(code: string, created: Time, expires: Option<Time>, durationMin: int, maxUses: int, note: string)

  /** A guest_code_use row; `code` is the foreign key. */
  datatype Use = Use(code: string, at: Time, mac: string, ip: string, upn: string)

  datatype Db = Db(codes: map<string, Row>, uses: seq<Use>)

  /** The domain record the handlers see. A zero expiry means never. */
  datatype GuestCode = GuestCode(code: string, created: Time, expiresAt: Time, durationMin: int, maxUses: int,
                                 note: string, uses: seq<Use>)
  {
    predicate IsExpired(now: Time) { expiresAt != 0 && now > expiresAt }

    predicate IsExhausted() { maxUses > 0 && |uses| >= maxUses }

    predicate IsActive(now: Time) { !IsExpired(now) && !IsExhausted() }
  }

  function NormalizeCode(code: string): string {
    ToLower(TrimSpace(code))
  }

  function CountUses(uses: seq<Use>, code: string): nat {
    if uses == [] then 0 else CountUses(uses[..|uses| - 1], code) + if uses[|uses| - 1].code == code then 1 else 0
  }

  function UsesOf(uses: seq<Use>, code: string): seq<Use> {
    if uses == [] then []
    else if uses[|uses| - 1].code == code then UsesOf(uses[..|uses| - 1], code) + [uses[|uses| - 1]]
    else UsesOf(uses[..|uses| - 1], code)
  }

  function ToDomain(row: Row, uses: seq<Use>): GuestCode {
    GuestCode(row.code, row.created, if row.expires.Some? then row.expires.value else 0, row.durationMin, row.maxUses,
              row.note, uses)
  }

  function ToRow(c: GuestCode): Row {
    Row(c.code, c.created, if c.expiresAt == 0 then None else Some(c.expiresAt), c.durationMin, c.maxUses, c.note)
  }

  /** `use` names a code that exists, in that code's own spelling. */
  ghost predicate HasParent(codes: map<string, Row>, use: Use) {
    var k := NormalizeCode(use.code);
    k in codes && codes[k].code == use.code
  }

  /** What the schema keeps: lookup keys match, no year-1 expiry is stored, no use is orphaned. */
  ghost predicate Valid(db: Db) {
    && (forall k :: k in db.codes ==> k != "" && NormalizeCode(db.codes[k].code) == k && db.codes[k].expires != Some(0))
    && (forall i :: 0 <= i < |db.uses| ==> HasParent(db.codes, db.uses[i]))
  }

  // ----- redemption -----

  predicate Expired(row: Row, now: Time) {
    row.expires.Some? && now > row.expires.value
  }

  predicate Exhausted(row: Row, used: nat) {
    row.maxUses > 0 && used >= row.maxUses
  }

  /** Whether redeeming the code at `key` at this instant would succeed. */
  predicate Usable(db: Db, key: string, now: Time) {
    key in db.codes && !Expired(db.codes[key], now) && !Exhausted(db.codes[key], CountUses(db.uses, db.codes[key].code))
  }

  /** Redemption as one indivisible step: what Validate is meant to be. */
  function Redeem(db: Db, key: string, check: Time, at: Time, mac: string, ip: string,
                  upn: string): (Db, Option<GuestCode>) {
    if Usable(db, key, check) then
      var row := db.codes[key];
      var uses := db.uses + [Use(row.code, at, mac, ip, upn)];
      (Db(db.codes, uses), Some(ToDomain(row, UsesOf(uses, row.code))))
    else (db, None)
  }

  // ----- deletion with the cascade -----

  function KeepUses(uses: seq<Use>, gone: set<string>): seq<Use> {
    if uses == [] then []
    else if uses[|uses| - 1].code in gone then KeepUses(uses[..|uses| - 1], gone)
    else KeepUses(uses[..|uses| - 1], gone) + [uses[|uses| - 1]]
  }

  /** DELETE on guest_code with the ON DELETE CASCADE rule. */
  function Remove(db: Db, keys: set<string>): Db {
    Db(db.codes - keys, KeepUses(db.uses, set k | k in keys && k in db.codes :: db.codes[k].code))
  }

  /** The WHERE clause of DeleteInactive, as SQL evaluates it. */
  predicate SqlInactive(db: Db, key: string, now: Time)
    requires key in db.codes
  {
    var row := db.codes[key];
    || (row.expires.Some? && row.expires.value < now)
    || (row.maxUses > 0 && row.maxUses <= CountUses(db.uses, row.code))
  }

  function Inactive(db: Db, now: Time): set<string> {
    set k | k in db.codes && SqlInactive(db, k, now)
  }

  // ----- facts about the use table -----

  lemma {:induction false} UsesOfCount(uses: seq<Use>, code: string)
    ensures |UsesOf(uses, code)| == CountUses(uses, code)
  {
    if uses != [] {
      UsesOfCount(uses[..|uses| - 1], code);
    }
  }

  /** CountUses is a count: of the first n use rows, as many as there are naming the code. */
  lemma {:induction false} CountUsesCounts(uses: seq<Use>, code: string, n: nat)
    requires n <= |uses|
    ensures CountUses(uses[..n], code) == |set i: nat | i < n && uses[i].code == code|
  {
    var all := set i: nat | i < n && uses[i].code == code;
    if n == 0 {
      assert all == {};
    } else {
      CountUsesCounts(uses, code, n - 1);
      assert uses[..n][..n - 1] == uses[..n - 1];
      var rest := set i: nat | i < n - 1 && uses[i].code == code;
      if uses[n - 1].code == code {
        assert all == rest + {n - 1};
      } else {
        assert all == rest;
      }
    }
  }

  lemma AppendUse(uses: seq<Use>, use: Use, code: string)
    ensures CountUses(uses + [use], code) == CountUses(uses, code) + if use.code == code then 1 else 0
    ensures UsesOf(uses + [use], code) == if use.code == code then UsesOf(uses, code) + [use] else UsesOf(uses, code)
  {
    assert (uses + [use])[..|uses|] == uses;
  }

  lemma {:induction false} NoUses(uses: seq<Use>, code: string)
    requires forall i :: 0 <= i < |uses| ==> uses[i].code != code
    ensures CountUses(uses, code) == 0 && UsesOf(uses, code) == []
  {
    if uses != [] {
      NoUses(uses[..|uses| - 1], code);
    }
  }

  lemma {:induction false} ConcatUses(a: seq<Use>, b: seq<Use>, code: string)
    ensures CountUses(a + b, code) == CountUses(a, code) + CountUses(b, code)
  {
    if b == [] {
      assert a + b == a;
    } else {
      ConcatUses(a, b[..|b| - 1], code);
      assert a + b == (a + b[..|b| - 1]) + [b[|b| - 1]];
      AppendUse(a + b[..|b| - 1], b[|b| - 1], code);
    }
  }

  lemma {:induction false} KeepUsesOf(uses: seq<Use>, gone: set<string>, code: string)
    requires code !in gone
    ensures UsesOf(KeepUses(uses, gone), code) == UsesOf(uses, code)
    ensures CountUses(KeepUses(uses, gone), code) == CountUses(uses, code)
  {
    if uses != [] {
      var init, last := uses[..|uses| - 1], uses[|uses| - 1];
      KeepUsesOf(init, gone, code);
      if last.code !in gone {
        AppendUse(KeepUses(init, gone), last, code);
      }
    }
  }

  lemma {:induction false} KeepUsesMembers(uses: seq<Use>, gone: set<string>, i: nat)
    requires i < |KeepUses(uses, gone)|
    ensures KeepUses(uses, gone)[i] in uses && KeepUses(uses, gone)[i].code !in gone
  {
    var init, last := uses[..|uses| - 1], uses[|uses| - 1];
    if i < |KeepUses(init, gone)| {
      KeepUsesMembers(init, gone, i);
      var u := KeepUses(init, gone)[i];
      assert u in init;
    }
  }

  // ----- every statement keeps the schema's promises -----

  lemma RedeemKeepsValid(db: Db, key: string, check: Time, at: Time, mac: string, ip: string, upn: string)
    requires Valid(db)
    ensures Valid(Redeem(db, key, check, at, mac, ip, upn).0)
  {
  }

  /** The cascade never leaves a use without its code. */
  lemma RemoveKeepsValid(db: Db, keys: set<string>)
    requires Valid(db)
    ensures Valid(Remove(db, keys))
  {
    var gone := set k | k in keys && k in db.codes :: db.codes[k].code;
    var db' := Remove(db, keys);
    forall i | 0 <= i < |db'.uses| ensures HasParent(db'.codes, db'.uses[i]) {
      KeepUsesMembers(db.uses, gone, i);
      var u := db'.uses[i];
      assert HasParent(db.codes, u);
    }
  }

  /** Deleting codes disturbs no other code's history. */
  lemma RemoveKeepsOthers(db: Db, keys: set<string>, key: string)
    requires Valid(db) && key in db.codes && key !in keys
    ensures key in Remove(db, keys).codes && Remove(db, keys).codes[key] == db.codes[key]
    ensures CountUses(Remove(db, keys).uses, db.codes[key].code) == CountUses(db.uses, db.codes[key].code)
    ensures UsesOf(Remove(db, keys).uses, db.codes[key].code) == UsesOf(db.uses, db.codes[key].code)
  {
    var gone := set k | k in keys && k in db.codes :: db.codes[k].code;
    assert db.codes[key].code !in gone;
    KeepUsesOf(db.uses, gone, db.codes[key].code);
  }

  // ----- inserting -----

  /** The use rows a code arrives with, re-keyed to the inserted row. */
  function Rekeyed(uses: seq<Use>, code: string): seq<Use> {
    seq(|uses|, i requires 0 <= i < |uses| => uses[i].(code := code))
  }

  /** INSERT ... ON CONFLICT DO NOTHING, then the history in the same transaction. */
  function Insert(db: Db, c: GuestCode): (Db, bool) {
    var k := NormalizeCode(c.code);
    if k == "" || k in db.codes then (db, false)
    else (Db(db.codes[k := ToRow(c)], db.uses + Rekeyed(c.uses, c.code)), true)
  }

  lemma InsertKeepsValid(db: Db, c: GuestCode)
    requires Valid(db)
    ensures Valid(Insert(db, c).0)
  {
    var (db', ok) := Insert(db, c);
    forall i | 0 <= i < |db'.uses| ensures HasParent(db'.codes, db'.uses[i]) {
      if i < |db.uses| {
        assert HasParent(db.codes, db.uses[i]);
      }
    }
  }

  /** A new code never lands on another code's history, and its own history is what it brought. */
  lemma InsertKeepsOthers(db: Db, c: GuestCode, code: string)
    requires Valid(db) && NormalizeCode(c.code) != "" && NormalizeCode(c.code) !in db.codes
    ensures CountUses(Insert(db, c).0.uses, code) == if code == c.code then |c.uses| else CountUses(db.uses, code)
  {
    var brought := Rekeyed(c.uses, c.code);
    ConcatUses(db.uses, brought, code);
    if code == c.code {
      forall i | 0 <= i < |db.uses| ensures db.uses[i].code != code {
        assert HasParent(db.codes, db.uses[i]);
      }
      NoUses(db.uses, code);
      AllUses(brought, code);
    } else {
      NoUses(brought, code);
    }
  }

  lemma {:induction false} AllUses(uses: seq<Use>, code: string)
    requires forall i :: 0 <= i < |uses| ==> uses[i].code == code
    ensures CountUses(uses, code) == |uses|
  {
    if uses != [] {
      AllUses(uses[..|uses| - 1], code);
    }
  }

  /** Offering codes one after another; a spelling that is taken, or was just taken, is skipped. */
  function AddAll(db: Db, codes: seq<GuestCode>): (Db, seq<string>) {
    if codes == [] then (db, [])
    else
      var (d, added) := AddAll(db, codes[..|codes| - 1]);
      var (d', ok) := Insert(d, codes[|codes| - 1]);
      (d', if ok then added + [codes[|codes| - 1].code] else added)
  }

  /** A batch overwrites nothing, and every nonblank spelling offered exists afterwards. */
  lemma {:induction false} AddAllOverwritesNothing(db: Db, codes: seq<GuestCode>, k: string)
    ensures k in db.codes ==> k in AddAll(db, codes).0.codes && AddAll(db, codes).0.codes[k] == db.codes[k]
    ensures k != "" && (exists c :: c in codes && NormalizeCode(c.code) == k) ==> k in AddAll(db, codes).0.codes
  {
    if codes != [] {
      AddAllOverwritesNothing(db, codes[..|codes| - 1], k);
      assert codes == codes[..|codes| - 1] + [codes[|codes| - 1]];
    }
  }

  /**
   * The answer of a batch is exactly the new codes: no code listed existed before, no spelling
   * is listed twice, and each is stored as one of the offered codes.
   */
  lemma {:induction false} AddAllReportsWhatLanded(db: Db, codes: seq<GuestCode>, i: nat)
    requires i < |AddAll(db, codes).1|
    ensures var (d, added) := AddAll(db, codes);
            var k := NormalizeCode(added[i]);
            && k !in db.codes && k in d.codes && d.codes[k].code == added[i]
            && (exists c :: c in codes && d.codes[k] == ToRow(c))
            && forall j :: 0 <= j < i ==> NormalizeCode(added[j]) != k
  {
    var init, last := codes[..|codes| - 1], codes[|codes| - 1];
    var (d, added) := AddAll(db, init);
    assert codes == init + [last];
    if i < |added| {
      AddAllReportsWhatLanded(db, init, i);
      var c :| c in init && d.codes[NormalizeCode(added[i])] == ToRow(c);
      assert c in codes;
    } else {
      AddAllOverwritesNothing(db, init, NormalizeCode(last.code));
      forall j | 0 <= j < i ensures NormalizeCode(added[j]) != NormalizeCode(last.code) {
        AddAllReportsWhatLanded(db, init, j);
      }
      assert last in codes;
    }
  }

  /** ... and nothing but the listed codes appears. */
  lemma {:induction false} AddAllAddsNothingElse(db: Db, codes: seq<GuestCode>, k: string)
    requires k in AddAll(db, codes).0.codes && k !in db.codes
    ensures AddAll(db, codes).0.codes[k].code in AddAll(db, codes).1
  {
    var init := codes[..|codes| - 1];
    if k in AddAll(db, init).0.codes {
      AddAllAddsNothingElse(db, init, k);
    }
  }

  function Edited(db: Db, key: string, expiresAt: Time, durationMin: int, maxUses: int, note: string): Db {
    if key !in db.codes then db
    else
      var row := db.codes[key].(expires := if expiresAt == 0 then None else Some(expiresAt), durationMin := durationMin,
                                maxUses := maxUses, note := note);
      db.(codes := db.codes[key := row])
  }

  lemma EditKeepsValid(db: Db, key: string, expiresAt: Time, durationMin: int, maxUses: int, note: string)
    requires Valid(db)
    ensures Valid(Edited(db, key, expiresAt, durationMin, maxUses, note))
  {
    var db' := Edited(db, key, expiresAt, durationMin, maxUses, note);
    forall i | 0 <= i < |db'.uses| ensures HasParent(db'.codes, db'.uses[i]) {
      assert HasParent(db.codes, db.uses[i]);
    }
  }

  // ----- what a redemption hands back -----

  /** The record the handlers see for the code at `key`. */
  function Loaded(db: Db, key: string): GuestCode
    requires key in db.codes
  {
    ToDomain(db.codes[key], UsesOf(db.uses, db.codes[key].code))
  }

  lemma {:induction false} ConcatUsesOf(a: seq<Use>, b: seq<Use>, code: string)
    ensures UsesOf(a + b, code) == UsesOf(a, code) + UsesOf(b, code)
  {
    if b == [] {
      assert a + b == a;
    } else {
      ConcatUsesOf(a, b[..|b| - 1], code);
      assert a + b == (a + b[..|b| - 1]) + [b[|b| - 1]];
      AppendUse(a + b[..|b| - 1], b[|b| - 1], code);
    }
  }

  lemma {:induction false} AllUsesOf(uses: seq<Use>, code: string)
    requires forall i :: 0 <= i < |uses| ==> uses[i].code == code
    ensures UsesOf(uses, code) == uses
  {
    if uses != [] {
      AllUsesOf(uses[..|uses| - 1], code);
    }
  }

  /** A redemption succeeds exactly on a record that is active, and hands it back with the new use added. */
  lemma RedemptionHandsBackTheRecord(db: Db, key: string, check: Time, at: Time, mac: string, ip: string, upn: string)
    requires Valid(db) && key in db.codes
    ensures var was, result := Loaded(db, key), Redeem(db, key, check, at, mac, ip, upn).1;
            && (result.Some? <==> was.IsActive(check))
            && (result.Some? ==> result.value == was.(uses := was.uses + [Use(was.code, at, mac, ip, upn)]))
  {
    var row := db.codes[key];
    UsesOfCount(db.uses, row.code);
    AppendUse(db.uses, Use(row.code, at, mac, ip, upn), row.code);
  }

  /** A code that was added loads as it was added, with the history it brought. */
  lemma AddedCodeLoadsAsAdded(db: Db, c: GuestCode)
    requires Valid(db) && Insert(db, c).1
    ensures NormalizeCode(c.code) in Insert(db, c).0.codes
    ensures var loaded := Loaded(Insert(db, c).0, NormalizeCode(c.code));
            && loaded == c.(uses := loaded.uses) && |loaded.uses| == |c.uses|
            && forall i :: 0 <= i < |c.uses| ==> loaded.uses[i] == c.uses[i].(code := c.code)
  {
    forall i | 0 <= i < |db.uses| ensures db.uses[i].code != c.code {
      assert HasParent(db.codes, db.uses[i]);
    }
    NoUses(db.uses, c.code);
    ConcatUsesOf(db.uses, Rekeyed(c.uses, c.code), c.code);
    AllUsesOf(Rekeyed(c.uses, c.code), c.code);
  }

  /**
   * What was put in comes out: redeeming a fresh code under any spelling that was added hands back every
   * field of the record as it was added, and the one use, exactly when the record is active.
   */
  lemma FreshCodeComesBack(db: Db, c: GuestCode, check: Time, at: Time, mac: string, ip: string, upn: string)
    requires Valid(db) && Insert(db, c).1 && c.uses == []
    ensures var result := Redeem(Insert(db, c).0, NormalizeCode(c.code), check, at, mac, ip, upn).1;
            && (result.Some? <==> c.IsActive(check))
            && (result.Some? ==> result.value == c.(uses := [Use(c.code, at, mac, ip, upn)]))
  {
    InsertKeepsValid(db, c);
    AddedCodeLoadsAsAdded(db, c);
    RedemptionHandsBackTheRecord(Insert(db, c).0, NormalizeCode(c.code), check, at, mac, ip, upn);
  }

  /** After an edit the record has the edited expiry, duration, limit and note, and its history. */
  lemma EditedCodeComesBack(db: Db, key: string, expiresAt: Time, durationMin: int, maxUses: int, note: string,
                            check: Time, at: Time, mac: string, ip: string, upn: string)
    requires Valid(db) && key in db.codes
    ensures var edited := Loaded(db, key).(expiresAt := expiresAt, durationMin := durationMin, maxUses := maxUses,
                                           note := note);
            var db' := Edited(db, key, expiresAt, durationMin, maxUses, note);
            var result := Redeem(db', key, check, at, mac, ip, upn).1;
            && (result.Some? <==> edited.IsActive(check))
            && (result.Some? ==> result.value == edited.(uses := edited.uses + [Use(edited.code, at, mac, ip, upn)]))
  {
    EditKeepsValid(db, key, expiresAt, durationMin, maxUses, note);
    RedemptionHandsBackTheRecord(Edited(db, key, expiresAt, durationMin, maxUses, note), key, check, at, mac, ip, upn);
  }

  /** Two spellings of the same letters. */
  predicate CaseVariant(s: string, t: string) {
    |s| == |t| && forall i :: 0 <= i < |s| ==> ToLower(s)[i] == ToLower(t)[i]
  }

  predicate Blank(s: string) {
    forall i :: 0 <= i < |s| ==> IsSpace(s[i])
  }

  lemma {:induction false} TrimLeftIgnores(pad: string, s: string)
    requires Blank(pad)
    ensures TrimLeft(pad + s) == TrimLeft(s)
  {
    if pad == "" {
      assert pad + s == s;
    } else {
      assert (pad + s)[1..] == pad[1..] + s;
      TrimLeftIgnores(pad[1..], s);
    }
  }

  lemma {:induction false} TrimRightIgnores(s: string, pad: string)
    requires Blank(pad)
    ensures TrimRight(s + pad) == TrimRight(s)
  {
    if pad == "" {
      assert s + pad == s;
    } else {
      var init := pad[..|pad| - 1];
      assert (s + pad)[..|s + pad| - 1] == s + init;
      TrimRightIgnores(s, init);
    }
  }

  lemma {:induction false} TrimLeftOfBlankEnd(s: string, pad: string)
    requires Blank(pad)
    ensures TrimRight(TrimLeft(s + pad)) == TrimRight(TrimLeft(s))
  {
    if s == "" {
      assert s + pad == pad + "";
      TrimLeftIgnores(pad, "");
    } else if IsSpace(s[0]) {
      assert (s + pad)[1..] == s[1..] + pad;
      TrimLeftOfBlankEnd(s[1..], pad);
    } else {
      TrimRightIgnores(s, pad);
    }
  }

  lemma {:induction false} TrimLeftKeepsVariant(s: string, t: string)
    requires CaseVariant(s, t)
    ensures CaseVariant(TrimLeft(s), TrimLeft(t))
  {
    if s != "" {
      assert ToLower(s)[0] == ToLower(t)[0];
      if IsSpace(s[0]) {
        forall i | 0 <= i < |s| - 1 ensures ToLower(s[1..])[i] == ToLower(t[1..])[i] {
          assert ToLower(s)[i + 1] == ToLower(t)[i + 1];
        }
        TrimLeftKeepsVariant(s[1..], t[1..]);
      }
    }
  }

  lemma {:induction false} TrimRightKeepsVariant(s: string, t: string)
    requires CaseVariant(s, t)
    ensures CaseVariant(TrimRight(s), TrimRight(t))
  {
    if s != "" {
      var n := |s| - 1;
      assert ToLower(s)[n] == ToLower(t)[n];
      if IsSpace(s[n]) {
        forall i | 0 <= i < n ensures ToLower(s[..n])[i] == ToLower(t[..n])[i] {
          assert ToLower(s)[i] == ToLower(t)[i];
        }
        TrimRightKeepsVariant(s[..n], t[..n]);
      }
    }
  }

  /** Guests may type a code in either case and with blanks around it: it finds the same code. */
  lemma SpellingIsForgiven(left: string, s: string, right: string, t: string)
    requires Blank(left) && Blank(right) && CaseVariant(s, t)
    ensures NormalizeCode(left + s + right) == NormalizeCode(t)
  {
    assert left + s + right == left + (s + right);
    TrimLeftIgnores(left, s + right);
    TrimLeftOfBlankEnd(s, right);
    TrimLeftKeepsVariant(s, t);
    TrimRightKeepsVariant(TrimLeft(s), TrimLeft(t));
  }

  // ----- the store -----

  class Store {
    var db: Db

    constructor ()
      ensures Valid(db) && db == Db(map[], [])
    {
      db := Db(map[], []);
    }

    /** Validate run without interference; `check` and `at` are its two clock readings. */
    method Validate(code: string, mac: string, ip: string, upn: string, check: Time, at: Time)
      returns (result: Option<GuestCode>)
      requires Valid(db)
      modifies this
      ensures Valid(db)
      ensures (db, result) == Redeem(old(db), NormalizeCode(code), check, at, mac, ip, upn)
    {
      RedeemKeepsValid(db, NormalizeCode(code), check, at, mac, ip, upn);
      var k := NormalizeCode(code);
      if k == "" {
        return None;
      }
      if k !in db.codes {
        return None;
      }
      var row := db.codes[k];
      if row.expires.Some? && check > row.expires.value {
        return None;
      }
      var used := CountUses(db.uses, row.code);
      if row.maxUses > 0 && used >= row.maxUses {
        return None;
      }
      var use := Use(row.code, at, mac, ip, upn);
      db := db.(uses := db.uses + [use]);
      result := Some(ToDomain(row, UsesOf(db.uses, row.code)));
    }

    method Add(c: GuestCode) returns (inserted: bool)
      requires Valid(db)
      modifies this
      ensures Valid(db) && (db, inserted) == Insert(old(db), c)
    {
      InsertKeepsValid(db, c);
      if NormalizeCode(c.code) == "" {
        return false;
      }
      inserted := InsertCode(c);
    }

    method InsertCode(c: GuestCode) returns (inserted: bool)
      requires NormalizeCode(c.code) != ""
      modifies this
      ensures (db, inserted) == Insert(old(db), c)
    {
      var row := ToRow(c);
      var k := NormalizeCode(c.code);
      if k in db.codes {
        return false;
      }
      var codes := db.codes[k := row];
      var uses := [];
      var i := 0;
      while i < |c.uses|
        invariant 0 <= i <= |c.uses| && uses == Rekeyed(c.uses, c.code)[..i]
      {
        uses := uses + [c.uses[i].(code := row.code)];
        i := i + 1;
      }
      assert uses == Rekeyed(c.uses, c.code);
      db := Db(codes, db.uses + uses);
      inserted := true;
    }

    /** A batch in one transaction; the answer lists the codes that landed. */
    method AddMany(codes: seq<GuestCode>) returns (added: seq<string>)
      requires Valid(db)
      modifies this
      ensures Valid(db) && (db, added) == AddAll(old(db), codes)
    {
      added := [];
      var seen: set<string> := {};
      var n := 0;
      while n < |codes|
        invariant 0 <= n <= |codes| && Valid(db)
        invariant forall k :: k in seen ==> k in db.codes
        invariant (db, added) == AddAll(old(db), codes[..n])
      {
        var c := codes[n];
        var k := NormalizeCode(c.code);
        assert codes[..n + 1][..n] == codes[..n];
        n := n + 1;
        if k == "" || k in seen {
          continue;
        }
        seen := seen + {k};
        InsertKeepsValid(db, c);
        var ok := InsertCode(c);
        if ok {
          added := added + [c.code];
        }
      }
      assert codes[..n] == codes;
    }

    /**
     * `matched` says what the backend calls affected: the rows its WHERE clause matched (SQLite,
     * PostgreSQL) or only those whose values changed (MySQL by default).
     */
    method Edit(code: string, expiresAt: Time, durationMin: int, maxUses: int, note: string, matched: bool)
      returns (ok: bool)
      requires Valid(db)
      modifies this
      ensures Valid(db)
      ensures ok <==> if matched then NormalizeCode(code) in old(db).codes else db != old(db)
      ensures db == Edited(old(db), NormalizeCode(code), expiresAt, durationMin, maxUses, note)
    {
      var k := NormalizeCode(code);
      EditKeepsValid(db, k, expiresAt, durationMin, maxUses, note);
      if k == "" || k !in db.codes {
        return false;
      }
      var expires := None;
      if expiresAt != 0 {
        expires := Some(expiresAt);
      }
      var row := db.codes[k].(durationMin := durationMin, maxUses := maxUses, note := note, expires := expires);
      ok := matched || row != db.codes[k];
      db := db.(codes := db.codes[k := row]);
    }

    method Delete(code: string) returns (ok: bool)
      requires Valid(db)
      modifies this
      ensures Valid(db)
      ensures ok == (NormalizeCode(code) in old(db).codes)
      ensures db == Remove(old(db), {NormalizeCode(code)})
    {
      var k := NormalizeCode(code);
      RemoveKeepsValid(db, {k});
      if k == "" {
        RemoveNothing(db, {k});
        return false;
      }
      ok := k in db.codes;
      db := Remove(db, {k});
    }

    method DeleteInactive(now: Time) returns (n: nat)
      requires Valid(db)
      modifies this
      ensures Valid(db)
      ensures db == Remove(old(db), Inactive(old(db), now)) && n == |old(db).codes| - |db.codes|
    {
      var dead := Inactive(db, now);
      RemoveKeepsValid(db, dead);
      SubsetSize(dead, db.codes.Keys);
      n := |dead|;
      assert (db.codes - dead).Keys == db.codes.Keys - dead;
      db := Remove(db, dead);
    }
  }

  lemma RemoveNothing(db: Db, keys: set<string>)
    requires keys !! db.codes.Keys
    ensures Remove(db, keys) == db
  {
    var gone := set k | k in keys && k in db.codes :: db.codes[k].code;
    assert gone == {};
    KeepAll(db.uses);
    assert db.codes - keys == db.codes;
  }

  lemma {:induction false} KeepAll(uses: seq<Use>)
    ensures KeepUses(uses, {}) == uses
  {
    if uses != [] {
      KeepAll(uses[..|uses| - 1]);
    }
  }
}
