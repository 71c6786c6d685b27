/**
 * Redemption by any number of portal processes against one database
 * (portal/store_guestcode.go:461-505). Each attempt is a transaction whose statements
 * interleave with every other attempt and with the administrators' statements; an insert stays
 * private until commit. The row lock (or, on SQLite, the single connection) is the only thing
 * that keeps them apart.
 */
module GuestCodeConcurrency {
  import opened Common
  import opened GuestCodes

  datatype Driver = SQLite | Server

  /** Where one attempt has got to. Every state but Idle is an open transaction holding its lock. */
  datatype Pc =
    | Idle
    | Locked(key: string, row: Row)
    | Unexpired(key: string, row: Row, check: Time)
    | Counted(key: string, row: Row, check: Time, used: nat)
    | Inserted(key: string, row: Row, check: Time, used: nat, use: Use)

  /** The committed tables and the attempts in progress. */
  datatype Sys = Sys(db: Db, attempts: map<nat, Pc>)

  function PcOf(s: Sys, t: nat): Pc {
    if t in s.attempts then s.attempts[t] else Idle
  }

  /** rowLock: SELECT ... FOR UPDATE waits for the row; SQLite waits for the whole connection. */
  ghost predicate CanLock(d: Driver, s: Sys, key: string) {
    forall t :: t in s.attempts && !s.attempts[t].Idle? ==> d == Server && s.attempts[t].key != key
  }

  datatype Step =
    | Begin(t: nat, code: string)
    | CheckExpiry(t: nat, now: Time)
    | Count(t: nat)
    | InsertUse(t: nat, at: Time, mac: string, ip: string, upn: string)
    | Commit(t: nat)
    | Abort(t: nat)                                    // an error or a lost connection rolls back
    | AdminAdd(c: GuestCode)
    | AdminEdit(key: string, expiresAt: Time, durationMin: int, maxUses: int, note: string)
    | AdminDelete(keys: set<string>)                   // Delete, DeleteMany and DeleteInactive

  /** The attempt's answer, if this step settles it. */
  datatype Answer = Undecided | Refused | Granted

  /** What an attempt's next statement does: its new program counter and the answer it settles on. */
  ghost predicate AttemptStep(d: Driver, s: Sys, step: Step, pc: Pc, pc': Pc, answer: Answer) {
    match step
    case Begin(t, code) =>
      var k := NormalizeCode(code);
      && pc.Idle?
      && (k != "" ==> CanLock(d, s, k))
      && if k != "" && k in s.db.codes then pc' == Locked(k, s.db.codes[k]) && answer == Undecided
         else pc' == Idle && answer == Refused
    case CheckExpiry(t, now) =>
      && pc.Locked?
      && if Expired(pc.row, now) then pc' == Idle && answer == Refused
         else pc' == Unexpired(pc.key, pc.row, now) && answer == Undecided
    case Count(t) =>
      && pc.Unexpired?
      && var used := CountUses(s.db.uses, pc.row.code);
         if Exhausted(pc.row, used) then pc' == Idle && answer == Refused
         else pc' == Counted(pc.key, pc.row, pc.check, used) && answer == Undecided
    case InsertUse(t, at, mac, ip, upn) =>
      && pc.Counted? && answer == Undecided
      && pc' == Inserted(pc.key, pc.row, pc.check, pc.used, Use(pc.row.code, at, mac, ip, upn))
    case Commit(t) => pc.Inserted? && pc' == Idle && answer == Granted
    case Abort(t) => !pc.Idle? && pc' == Idle && answer == Refused
    case _ => false
  }

  predicate IsAttempt(step: Step) {
    step.Begin? || step.CheckExpiry? || step.Count? || step.InsertUse? || step.Commit? || step.Abort?
  }

  /** The committed tables after a step. Only a commit or an administrator changes them. */
  function DbAfter(s: Sys, step: Step): Db {
    match step
    case Commit(t) => if PcOf(s, t).Inserted? then s.db.(uses := s.db.uses + [PcOf(s, t).use]) else s.db
    case AdminAdd(c) => Insert(s.db, c).0
    case AdminEdit(key, expiresAt, durationMin, maxUses, note) =>
      Edited(s.db, key, expiresAt, durationMin, maxUses, note)
    case AdminDelete(keys) => Remove(s.db, keys)
    case _ => s.db
  }

  /** An administrator's statement waits for the rows it writes. */
  ghost predicate AdminEnabled(d: Driver, s: Sys, step: Step) {
    match step
    case AdminAdd(_) => d == SQLite ==> forall t :: t in s.attempts ==> s.attempts[t].Idle?
    case AdminEdit(key, _, _, _, _) => CanLock(d, s, key)
    case AdminDelete(keys) => forall k :: k in keys ==> CanLock(d, s, k)
    case _ => false
  }

  ghost predicate Next(d: Driver, s: Sys, step: Step, s': Sys, answer: Answer) {
    && s'.db == DbAfter(s, step)
    && if IsAttempt(step) then
         && s'.attempts == s.attempts[step.t := PcOf(s', step.t)]
         && AttemptStep(d, s, step, PcOf(s, step.t), PcOf(s', step.t), answer)
       else AdminEnabled(d, s, step) && s'.attempts == s.attempts && answer == Undecided
  }

  // ----- the invariant -----

  /** What an open transaction may rely on until it ends. */
  ghost predicate Holds(db: Db, pc: Pc) {
    !pc.Idle? ==>
      && pc.key in db.codes && db.codes[pc.key] == pc.row
      && (!pc.Locked? ==> !Expired(pc.row, pc.check))
      && (pc.Counted? || pc.Inserted? ==> pc.used == CountUses(db.uses, pc.row.code) && !Exhausted(pc.row, pc.used))
      && (pc.Inserted? ==> pc.use.code == pc.row.code)
  }

  /** Two open transactions never share a row; on SQLite there is only one. */
  ghost predicate Apart(d: Driver, p: Pc, q: Pc) {
    !p.Idle? && !q.Idle? ==> d == Server && p.key != q.key
  }

  ghost predicate Inv(d: Driver, s: Sys) {
    && Valid(s.db)
    && (forall t :: t in s.attempts ==> Holds(s.db, s.attempts[t]))
    && (forall t, u :: t in s.attempts && u in s.attempts && t != u ==> Apart(d, s.attempts[t], s.attempts[u]))
  }

  lemma DistinctKeysDistinctCodes(db: Db, a: string, b: string)
    requires Valid(db) && a in db.codes && b in db.codes && a != b
    ensures db.codes[a].code != db.codes[b].code
  {
  }

  /** Another transaction's commit leaves what this one relies on untouched. */
  lemma CommitKeepsHolds(db: Db, pc: Pc, other: Pc)
    requires Valid(db) && Holds(db, pc) && Holds(db, other) && other.Inserted?
    requires !pc.Idle? ==> pc.key != other.key
    ensures Holds(db.(uses := db.uses + [other.use]), pc)
  {
    if !pc.Idle? {
      DistinctKeysDistinctCodes(db, pc.key, other.key);
      AppendUse(db.uses, other.use, pc.row.code);
    }
  }

  lemma CommitKeepsValid(db: Db, pc: Pc)
    requires Valid(db) && Holds(db, pc) && pc.Inserted?
    ensures Valid(db.(uses := db.uses + [pc.use]))
  {
  }

  lemma AdminKeepsHolds(d: Driver, s: Sys, step: Step, t: nat)
    requires Inv(d, s) && !IsAttempt(step) && AdminEnabled(d, s, step) && t in s.attempts
    ensures Holds(DbAfter(s, step), s.attempts[t])
  {
    var pc := s.attempts[t];
    if !pc.Idle? {
      match step {
        case AdminAdd(c) =>
          if Insert(s.db, c).1 {
            InsertKeepsOthers(s.db, c, pc.row.code);
          }
        case AdminEdit(key, _, _, _, _) =>
          assert pc.key != key;
        case AdminDelete(keys) =>
          assert pc.key !in keys;
          RemoveKeepsOthers(s.db, keys, pc.key);
      }
    }
  }

  lemma StepKeepsValid(d: Driver, s: Sys, step: Step, s': Sys, answer: Answer)
    requires Inv(d, s) && Next(d, s, step, s', answer)
    ensures Valid(s'.db)
  {
    match step {
      case AdminAdd(c) => InsertKeepsValid(s.db, c);
      case AdminEdit(key, expiresAt, durationMin, maxUses, note) =>
        EditKeepsValid(s.db, key, expiresAt, durationMin, maxUses, note);
      case AdminDelete(keys) => RemoveKeepsValid(s.db, keys);
      case Commit(t) => CommitKeepsValid(s.db, s.attempts[t]);
      case _ =>
    }
  }

  /** The stepping attempt itself ends up with what it may rely on. */
  lemma OwnStepHolds(d: Driver, s: Sys, step: Step, pc': Pc, answer: Answer)
    requires Inv(d, s) && IsAttempt(step) && AttemptStep(d, s, step, PcOf(s, step.t), pc', answer)
    ensures Holds(DbAfter(s, step), pc')
    ensures forall u :: u in s.attempts && u != step.t ==> Apart(d, pc', s.attempts[u]) && Apart(d, s.attempts[u], pc')
  {
    var pc := PcOf(s, step.t);
    if !pc.Idle? {
      assert pc == s.attempts[step.t];
    }
  }

  lemma OthersHold(d: Driver, s: Sys, step: Step, s': Sys, answer: Answer, u: nat)
    requires Inv(d, s) && IsAttempt(step) && Next(d, s, step, s', answer) && u in s.attempts && u != step.t
    ensures Holds(s'.db, s.attempts[u])
  {
    if step.Commit? {
      var pc := s.attempts[step.t];
      assert Apart(d, s.attempts[u], pc);
      CommitKeepsHolds(s.db, s.attempts[u], pc);
    }
  }

  /** Every statement of every process keeps the invariant. */
  lemma StepKeepsInv(d: Driver, s: Sys, step: Step, s': Sys, answer: Answer)
    requires Inv(d, s) && Next(d, s, step, s', answer)
    ensures Inv(d, s')
  {
    StepKeepsValid(d, s, step, s', answer);
    if IsAttempt(step) {
      OwnStepHolds(d, s, step, s'.attempts[step.t], answer);
      forall u | u in s'.attempts ensures Holds(s'.db, s'.attempts[u]) {
        if u != step.t {
          OthersHold(d, s, step, s', answer, u);
        }
      }
    } else {
      forall u | u in s'.attempts ensures Holds(s'.db, s'.attempts[u]) {
        AdminKeepsHolds(d, s, step, u);
      }
    }
  }

  // ----- each answer is what an indivisible redemption would give -----

  /**
   * Linearizability, step by step. A grant changes the tables exactly as Redeem would at the
   * moment of the commit, evaluated at the attempt's own clock reading; any other statement of an
   * attempt, refusals included, leaves both tables as they were.
   */
  lemma AttemptsAreAtomic(d: Driver, s: Sys, step: Step, s': Sys, answer: Answer)
    requires Inv(d, s) && Next(d, s, step, s', answer) && IsAttempt(step)
    ensures answer == Granted <==> step.Commit?
    ensures answer == Granted ==>
              var pc := s.attempts[step.t];
              && Usable(s.db, pc.key, pc.check)
              && s'.db == Redeem(s.db, pc.key, pc.check, pc.use.at, pc.use.mac, pc.use.ip, pc.use.upn).0
              && (pc.row.maxUses > 0 ==> CountUses(s.db.uses, pc.row.code) < pc.row.maxUses)
    ensures answer != Granted ==> s'.db == s.db
  {
  }

  /** A refusal that is not a failure is justified: redeeming indivisibly here would be refused too. */
  lemma RefusalsAreJustified(d: Driver, s: Sys, step: Step, s': Sys, answer: Answer)
    requires Inv(d, s) && Next(d, s, step, s', answer) && IsAttempt(step) && answer == Refused && !step.Abort?
    ensures match step
            case Begin(_, code) => forall now :: !Usable(s.db, NormalizeCode(code), now)
            case CheckExpiry(t, now) => !Usable(s.db, s.attempts[t].key, now)
            case Count(t) => forall now :: !Usable(s.db, s.attempts[t].key, now)
            case _ => false
  {
    if step.Begin? {
      assert Valid(s.db);
    }
  }

  // ----- whole runs -----

  ghost predicate Run(d: Driver, states: seq<Sys>, steps: seq<Step>, answers: seq<Answer>) {
    && |states| == |steps| + 1 && |answers| == |steps|
    && Inv(d, states[0])
    && forall i :: 0 <= i < |steps| ==> Next(d, states[i], steps[i], states[i + 1], answers[i])
  }

  /** Any tables that satisfy the schema, with no attempt in progress, are a place to start. */
  lemma RestIsSound(d: Driver, db: Db)
    requires Valid(db)
    ensures Inv(d, Sys(db, map[]))
  {
  }

  lemma {:induction false} RunKeepsInv(d: Driver, states: seq<Sys>, steps: seq<Step>, answers: seq<Answer>, n: nat)
    requires Run(d, states, steps, answers) && n <= |steps|
    ensures Inv(d, states[n])
  {
    if n > 0 {
      RunKeepsInv(d, states, steps, answers, n - 1);
      StepKeepsInv(d, states[n - 1], steps[n - 1], states[n], answers[n - 1]);
    }
  }

  /** An operation of a history in which nothing overlaps. */
  datatype SerialOp = RedeemOp(key: string, check: Time, use: Use) | AdminOp(step: Step)

  /** What a step contributes to that history: a commit its redemption, an administrator the statement. */
  function SerialOf(s: Sys, step: Step): Option<SerialOp> {
    if step.Commit? && PcOf(s, step.t).Inserted? then
      Some(RedeemOp(PcOf(s, step.t).key, PcOf(s, step.t).check, PcOf(s, step.t).use))
    else if IsAttempt(step) then None
    else Some(AdminOp(step))
  }

  /** The operations of a run's first n steps, in order. */
  function SerialOps(states: seq<Sys>, steps: seq<Step>, n: nat): seq<SerialOp>
    requires n <= |steps| <= |states|
  {
    if n == 0 then []
    else
      var op := SerialOf(states[n - 1], steps[n - 1]);
      SerialOps(states, steps, n - 1) + if op.Some? then [op.value] else []
  }

  /** One operation with the tables to itself; false if it is a redemption and is refused. */
  function Apply(db: Db, op: SerialOp): (Db, bool) {
    match op
    case RedeemOp(key, check, use) =>
      var (db', result) := Redeem(db, key, check, use.at, use.mac, use.ip, use.upn);
      (db', result.Some?)
    case AdminOp(step) => (DbAfter(Sys(db, map[]), step), true)
  }

  function Execute(db: Db, ops: seq<SerialOp>): (Db, bool) {
    if ops == [] then (db, true)
    else
      var (d, ok) := Execute(db, ops[..|ops| - 1]);
      var (d', ok') := Apply(d, ops[|ops| - 1]);
      (d', ok && ok')
  }

  lemma StepIsSerial(d: Driver, s: Sys, step: Step, s': Sys, answer: Answer)
    requires Inv(d, s) && Next(d, s, step, s', answer)
    ensures var op := SerialOf(s, step);
            if op.Some? then Apply(s.db, op.value) == (s'.db, true) else s'.db == s.db
  {
    if IsAttempt(step) {
      AttemptsAreAtomic(d, s, step, s', answer);
    }
  }

  /**
   * Every run of the interleaved system is equivalent to a serial one: replaying its grants as
   * indivisible redemptions in commit order, between the same administrators' statements, grants
   * every one of them again and ends with the very same tables.
   */
  lemma {:induction false} RunIsSerializable(d: Driver, states: seq<Sys>, steps: seq<Step>, answers: seq<Answer>,
                                             n: nat)
    requires Run(d, states, steps, answers) && n <= |steps|
    ensures Execute(states[0].db, SerialOps(states, steps, n)) == (states[n].db, true)
  {
    if n > 0 {
      RunIsSerializable(d, states, steps, answers, n - 1);
      RunKeepsInv(d, states, steps, answers, n - 1);
      StepIsSerial(d, states[n - 1], steps[n - 1], states[n], answers[n - 1]);
      var before, after := SerialOps(states, steps, n - 1), SerialOps(states, steps, n);
      if SerialOf(states[n - 1], steps[n - 1]).Some? {
        assert after[..|before|] == before;
      } else {
        assert after == before;
      }
    }
  }

  /** In every reachable state no use row is without its code, whatever was deleted meanwhile. */
  lemma UsesKeepTheirCode(d: Driver, states: seq<Sys>, steps: seq<Step>, answers: seq<Answer>, n: nat, i: nat)
    requires Run(d, states, steps, answers) && n <= |steps| && i < |states[n].db.uses|
    ensures HasParent(states[n].db.codes, states[n].db.uses[i])
  {
    RunKeepsInv(d, states, steps, answers, n);
  }

  /** The step edits or deletes the code at `key`. */
  predicate Touches(step: Step, key: string) {
    || (step.AdminEdit? && step.key == key)
    || (step.AdminDelete? && key in step.keys)
  }

  /** 1 when the step admits a device on `key`, else 0. */
  function GrantOn(s: Sys, step: Step, key: string): nat {
    if step.Commit? && PcOf(s, step.t).Inserted? && PcOf(s, step.t).key == key then 1 else 0
  }

  /** Devices admitted on `key` by the steps from..upto. */
  function Grants(states: seq<Sys>, steps: seq<Step>, key: string, from: nat, upto: nat): nat
    requires from <= upto <= |steps| <= |states|
    decreases upto
  {
    if from == upto then 0
    else Grants(states, steps, key, from, upto - 1) + GrantOn(states[upto - 1], steps[upto - 1], key)
  }

  /** How often the code at `key` has been used. */
  function Used(s: Sys, key: string): nat
    requires key in s.db.codes
  {
    CountUses(s.db.uses, s.db.codes[key].code)
  }

  /** One step on an untouched code: the row stays, and its count moves by the grants of the step. */
  lemma UntouchedStep(d: Driver, s: Sys, step: Step, s': Sys, answer: Answer, key: string)
    requires Inv(d, s) && Next(d, s, step, s', answer) && key in s.db.codes && !Touches(step, key)
    ensures key in s'.db.codes && s'.db.codes[key] == s.db.codes[key]
    ensures Used(s', key) == Used(s, key) + GrantOn(s, step, key)
    ensures s.db.codes[key].maxUses > 0 ==> Used(s', key) <= Max(s.db.codes[key].maxUses, Used(s, key))
  {
    var code := s.db.codes[key].code;
    match step {
      case Commit(t) =>
        var pc := s.attempts[t];
        AppendUse(s.db.uses, pc.use, code);
        if pc.key != key {
          DistinctKeysDistinctCodes(s.db, pc.key, key);
        }
      case AdminAdd(c) =>
        if Insert(s.db, c).1 {
          InsertKeepsOthers(s.db, c, code);
        }
      case AdminDelete(keys) => RemoveKeepsOthers(s.db, keys, key);
      case _ =>
    }
  }

  /**
   * The central promise. While a limited code is neither edited nor deleted, the devices admitted
   * on it, over all processes and all interleavings, never exceed what was left of its limit.
   */
  lemma {:induction false} GrantsWithinLimit(d: Driver, states: seq<Sys>, steps: seq<Step>, answers: seq<Answer>,
                                             key: string, from: nat, upto: nat)
    requires Run(d, states, steps, answers) && from <= upto <= |steps|
    requires key in states[from].db.codes && states[from].db.codes[key].maxUses > 0
    requires forall i :: from <= i < upto ==> !Touches(steps[i], key)
    ensures key in states[upto].db.codes && states[upto].db.codes[key] == states[from].db.codes[key]
    ensures Used(states[upto], key) == Used(states[from], key) + Grants(states, steps, key, from, upto)
    ensures Used(states[upto], key) <= Max(states[from].db.codes[key].maxUses, Used(states[from], key))
    decreases upto
  {
    if from < upto {
      GrantsWithinLimit(d, states, steps, answers, key, from, upto - 1);
      RunKeepsInv(d, states, steps, answers, upto - 1);
      UntouchedStep(d, states[upto - 1], steps[upto - 1], states[upto], answers[upto - 1], key);
    }
  }

  /** A code created fresh with a limit admits at most that many devices. */
  lemma FreshCodeAdmitsAtMostMaxUses(d: Driver, states: seq<Sys>, steps: seq<Step>, answers: seq<Answer>,
                                     c: GuestCode, created: nat, upto: nat)
    requires Run(d, states, steps, answers) && created < upto <= |steps|
    requires steps[created] == AdminAdd(c) && Insert(states[created].db, c).1 && c.uses == [] && c.maxUses > 0
    requires forall i :: created < i < upto ==> !Touches(steps[i], NormalizeCode(c.code))
    ensures Grants(states, steps, NormalizeCode(c.code), created + 1, upto) <= c.maxUses
  {
    RunKeepsInv(d, states, steps, answers, created);
    AddedFresh(d, states[created], c, states[created + 1], answers[created]);
    GrantsWithinLimit(d, states, steps, answers, NormalizeCode(c.code), created + 1, upto);
  }

  lemma AddedFresh(d: Driver, s: Sys, c: GuestCode, s': Sys, answer: Answer)
    requires Inv(d, s) && Next(d, s, AdminAdd(c), s', answer) && Insert(s.db, c).1 && c.uses == []
    ensures var k := NormalizeCode(c.code);
            k in s'.db.codes && s'.db.codes[k].maxUses == c.maxUses && Used(s', k) == 0
  {
    InsertKeepsOthers(s.db, c, c.code);
  }

  /** An administrator's statement does what it says, and keeps its hands off every other code. */
  lemma AdminStepsTakeEffect(d: Driver, s: Sys, step: Step, s': Sys, answer: Answer)
    requires Inv(d, s) && Next(d, s, step, s', answer)
    ensures step.AdminAdd? && NormalizeCode(step.c.code) != "" ==> NormalizeCode(step.c.code) in s'.db.codes
    ensures step.AdminEdit? && step.key in s.db.codes ==>
              && step.key in s'.db.codes
              && s'.db.codes[step.key].maxUses == step.maxUses && s'.db.codes[step.key].durationMin == step.durationMin
              && s'.db.codes[step.key].note == step.note && s'.db.codes[step.key].code == s.db.codes[step.key].code
              && s'.db.codes[step.key].expires == if step.expiresAt == 0 then None else Some(step.expiresAt)
    ensures step.AdminDelete? ==> s'.db.codes.Keys == s.db.codes.Keys - step.keys
    ensures forall k :: k in s.db.codes && !Touches(step, k) ==> k in s'.db.codes && s'.db.codes[k] == s.db.codes[k]
  {
  }

}
