/**
 The first-admin bootstrap as a protocol of concurrent database sessions.

 Any number of operators run the same transaction. Each awaited statement is one step; between
 two steps any other run, or a writer that never takes the advisory lock, may move. A run that
 dies is rolled back by the server. `Isolation` says what a statement sees: the state committed
 when it starts (`ReadCommitted`), or the state committed when the transaction's first statement,
 the lock request, started (`Snapshot`).
 */
module BootstrapProtocol {
  import opened Prelude

  datatype Admin = Admin(realm: Option<nat>, login: string, email: Option<string>, owner: bool, totpEnabled: bool)

  datatype Realm = Realm(key: string, kind: string, status: string)

  /** A row of the audit log whose action is the bootstrap action. */
  datatype AuditRow = AuditRow(
    run: nat, admin: nat, login: string, email: string, ownerHandle: string, sourceIp: string)

  /** The committed tables. `audits` holds the bootstrap audit rows only. */
  datatype Db = Db(admins: map<nat, Admin>, audits: seq<AuditRow>, realms: map<nat, Realm>)

  /** What an operator supplies, with the two checks made before the transaction already evaluated. */
  datatype Config = Config(
    login: string, email: string, ownerHandle: string, sourceIp: string, totpKeyMissing: bool, codeVerifies: bool)

  datatype Code = TotpKeyRequired | InvalidTotpCode | BootstrapLocked | RealmMissing | InternalError

  datatype Outcome = Created(admin: nat) | Failed(code: Code)

  datatype Phase =
    | Ready
    | Waiting(snapshot: Db)
    | Holding(snapshot: Db)
    | CountedAdmins(snapshot: Db, count: nat)
    | Passed(snapshot: Db)
    | RealmKnown(realm: nat)
    | Flushed(realm: nat, id: nat)
    | AuditWritten(realm: nat, id: nat)
    | RollingBack(code: Code)
    | Done(outcome: Outcome)

  datatype Isolation = ReadCommitted | Snapshot

  /** `used` are the identifiers ever drawn; an identifier is never drawn twice. */
  datatype State = State(
    iso: Isolation, db: Db, used: set<nat>, lock: Option<nat>, configs: seq<Config>, runs: seq<Phase>)

  datatype Step =
    | CheckSecrets(run: nat)
    | Acquire(run: nat)
    | CountAdmins(run: nat)
    | CountAudits(run: nat)
    | FindRealm(run: nat, realm: Option<nat>)
    | FlushAdmin(run: nat, id: nat)
    | FlushAudit(run: nat)
    | Commit(run: nat)
    | Rollback(run: nat)
    | Crash(run: nat)
    | InsertAdmin(id: nat, admin: Admin)
    | DeleteAdmin(id: nat)
    | SetRealms(realms: map<nat, Realm>)
    | PurgeAudits

  /** Steps of a bootstrap run, as opposed to those of other writers. */
  predicate OfRun(step: Step) {
    !step.InsertAdmin? && !step.DeleteAdmin? && !step.SetRealms? && !step.PurgeAudits?
  }

  /** Phases in which the transaction holds the advisory lock. */
  predicate HoldsLock(p: Phase) {
    !p.Ready? && !p.Waiting? && !p.Done?
  }

  /** Phases after both counts were seen to be zero. */
  predicate PastGate(p: Phase) {
    p.Passed? || p.RealmKnown? || p.Flushed? || p.AuditWritten?
  }

  /** A row written but not yet committed. */
  predicate HasPending(p: Phase) {
    p.Flushed? || p.AuditWritten?
  }

  function NewAdmin(config: Config, realm: nat): Admin {
    Admin(Some(realm), config.login, Some(config.email), true, true)
  }

  /** The two unique constraints of the admin table; NULL never conflicts. */
  predicate Conflicts(a: Admin, b: Admin) {
    a.realm.Some? && a.realm == b.realm && (a.login == b.login || (a.email.Some? && a.email == b.email))
  }

  predicate ConflictsWithSome(a: Admin, admins: map<nat, Admin>) {
    exists i :: i in admins && Conflicts(a, admins[i])
  }

  predicate IsActiveAdminRealm(r: Realm) {
    r.key == "admin" && r.kind == "admin" && r.status == "active"
  }

  /** Deleting a realm sets the reference of its admins to NULL. */
  function Detach(a: Admin, realms: map<nat, Realm>): Admin {
    if a.realm.Some? && a.realm.value !in realms then a.(realm := None) else a
  }

  /** What a statement of run r sees. */
  function Visible(s: State, r: nat): Db
    requires r < |s.runs| && (s.runs[r].Holding? || s.runs[r].CountedAdmins? || s.runs[r].Passed?)
  {
    if s.iso.ReadCommitted? then s.db else s.runs[r].snapshot
  }

  predicate WellFormed(s: State) {
    |s.configs| == |s.runs|
  }

  predicate Enabled(s: State, step: Step)
    requires WellFormed(s)
  {
    (OfRun(step) ==> step.run < |s.runs|) &&
    match step
    case CheckSecrets(r) => s.runs[r].Ready?
    case Acquire(r) => s.runs[r].Waiting? && s.lock.None?
    case CountAdmins(r) => s.runs[r].Holding?
    case CountAudits(r) => s.runs[r].CountedAdmins?
    case FindRealm(r, realm) =>
      s.runs[r].Passed? &&
      var realms := Visible(s, r).realms;
      (match realm
       case Some(i) => i in realms && IsActiveAdminRealm(realms[i])
       case None => forall i :: i in realms ==> !IsActiveAdminRealm(realms[i]))
    case FlushAdmin(r, id) => s.runs[r].RealmKnown? && id !in s.used
    case FlushAudit(r) => s.runs[r].Flushed?
    case Commit(r) => s.runs[r].AuditWritten?
    case Rollback(r) => s.runs[r].RollingBack?
    case Crash(r) => !s.runs[r].Done?
    case InsertAdmin(id, admin) =>
      // a row that conflicts with a written but uncommitted one has to wait
      && id !in s.used && (admin.realm.Some? ==> admin.realm.value in s.db.realms)
      && !ConflictsWithSome(admin, s.db.admins)
      && forall r :: 0 <= r < |s.runs| && HasPending(s.runs[r]) ==>
                       !Conflicts(admin, NewAdmin(s.configs[r], s.runs[r].realm))
    case DeleteAdmin(id) => id in s.db.admins
    case SetRealms(realms) =>
      // a realm referenced by a written but uncommitted row cannot be deleted
      forall r :: 0 <= r < |s.runs| && HasPending(s.runs[r]) ==> s.runs[r].realm in realms
    case PurgeAudits => true
  }

  function WithPhase(s: State, r: nat, p: Phase): State
    requires r < |s.runs|
  {
    s.(runs := s.runs[r := p])
  }

  function Release(s: State, r: nat, outcome: Outcome): State
    requires r < |s.runs|
  {
    s.(runs := s.runs[r := Done(outcome)], lock := if s.lock == Some(r) then None else s.lock)
  }

  function AuditOf(config: Config, r: nat, id: nat): AuditRow {
    AuditRow(r, id, config.login, config.email, config.ownerHandle, config.sourceIp)
  }

  function Apply(s: State, step: Step): (s': State)
    requires WellFormed(s) && Enabled(s, step)
    ensures WellFormed(s') && s'.iso == s.iso && s'.configs == s.configs && |s'.runs| == |s.runs|
  {
    match step
    case CheckSecrets(r) =>
      if s.configs[r].totpKeyMissing then WithPhase(s, r, Done(Failed(TotpKeyRequired)))
      else if !s.configs[r].codeVerifies then WithPhase(s, r, Done(Failed(InvalidTotpCode)))
      else WithPhase(s, r, Waiting(s.db))
    case Acquire(r) => WithPhase(s, r, Holding(s.runs[r].snapshot)).(lock := Some(r))
    case CountAdmins(r) => WithPhase(s, r, CountedAdmins(s.runs[r].snapshot, |Visible(s, r).admins|))
    case CountAudits(r) =>
      if s.runs[r].count != 0 || |Visible(s, r).audits| != 0
      then WithPhase(s, r, RollingBack(BootstrapLocked))
      else WithPhase(s, r, Passed(s.runs[r].snapshot))
    case FindRealm(r, realm) =>
      (match realm
       case Some(i) => WithPhase(s, r, RealmKnown(i))
       case None => WithPhase(s, r, RollingBack(RealmMissing)))
    case FlushAdmin(r, id) =>
      var realm := s.runs[r].realm;
      if realm !in s.db.realms || ConflictsWithSome(NewAdmin(s.configs[r], realm), s.db.admins)
      then WithPhase(s, r, RollingBack(InternalError))
      else WithPhase(s, r, Flushed(realm, id)).(used := s.used + {id})
    case FlushAudit(r) => WithPhase(s, r, AuditWritten(s.runs[r].realm, s.runs[r].id))
    case Commit(r) =>
      var p := s.runs[r];
      Release(s, r, Created(p.id)).(db := s.db.(
        admins := s.db.admins[p.id := NewAdmin(s.configs[r], p.realm)],
        audits := s.db.audits + [AuditOf(s.configs[r], r, p.id)]))
    case Rollback(r) => Release(s, r, Failed(s.runs[r].code))
    case Crash(r) => Release(s, r, Failed(InternalError))
    case InsertAdmin(id, admin) => s.(db := s.db.(admins := s.db.admins[id := admin]), used := s.used + {id})
    case DeleteAdmin(id) => s.(db := s.db.(admins := s.db.admins - {id}))
    case SetRealms(realms) =>
      s.(db := s.db.(realms := realms,
                     admins := map i | i in s.db.admins :: Detach(s.db.admins[i], realms)))
    case PurgeAudits => s.(db := s.db.(audits := []))
  }

  /** A sequence of steps that can be taken one after the other. */
  predicate Possible(s: State, steps: seq<Step>)
    requires WellFormed(s)
    decreases |steps|
  {
    steps == [] || (Enabled(s, steps[0]) && Possible(Apply(s, steps[0]), steps[1..]))
  }

  function Exec(s: State, steps: seq<Step>): (s': State)
    requires WellFormed(s) && Possible(s, steps)
    ensures WellFormed(s') && s'.iso == s.iso && s'.configs == s.configs && |s'.runs| == |s.runs|
    decreases |steps|
  {
    if steps == [] then s else Exec(Apply(s, steps[0]), steps[1..])
  }

  /** No run has started and nobody holds the lock; the tables are arbitrary. */
  predicate Initial(s: State) {
    && WellFormed(s) && s.lock.None?
    && (forall r :: 0 <= r < |s.runs| ==> s.runs[r].Ready?)
    && s.db.admins.Keys <= s.used
    && UniqueRows(s.db.admins)
  }

  predicate UniqueRows(admins: map<nat, Admin>) {
    forall i, j :: i in admins && j in admins && i != j ==> !Conflicts(admins[i], admins[j])
  }

  predicate AuditsKept(steps: seq<Step>) {
    forall k :: 0 <= k < |steps| ==> !steps[k].PurgeAudits?
  }

  // ------------------------------------------------------------------------------------------
  // Mutual exclusion and the integrity of the admin table, under either isolation level.

  /** The lock names exactly the one run that is inside its transaction. */
  predicate LockInv(s: State) {
    && WellFormed(s)
    && (s.lock.Some? ==> s.lock.value < |s.runs| && HoldsLock(s.runs[s.lock.value]))
    && forall r :: 0 <= r < |s.runs| && HoldsLock(s.runs[r]) ==> s.lock == Some(r)
  }

  /** The pending row of run r fits beside the committed ones. */
  predicate PendingFits(s: State, r: nat)
    requires WellFormed(s) && r < |s.runs| && HasPending(s.runs[r])
  {
    && s.runs[r].id in s.used && s.runs[r].id !in s.db.admins
    && s.runs[r].realm in s.db.realms
    && !ConflictsWithSome(NewAdmin(s.configs[r], s.runs[r].realm), s.db.admins)
  }

  /** Identifiers are fresh, the unique constraints hold, and pending rows fit. */
  predicate TableInv(s: State) {
    && WellFormed(s)
    && s.db.admins.Keys <= s.used
    && UniqueRows(s.db.admins)
    && forall r :: 0 <= r < |s.runs| && HasPending(s.runs[r]) ==> PendingFits(s, r)
  }

  lemma LockInvKept(s: State, step: Step)
    requires LockInv(s) && Enabled(s, step)
    ensures LockInv(Apply(s, step))
  {
  }

  lemma TableInvKept(s: State, step: Step)
    requires LockInv(s) && TableInv(s) && Enabled(s, step)
    ensures TableInv(Apply(s, step))
  {
    UniqueRowsKept(s, step);
    var s' := Apply(s, step);
    assert s'.db.admins.Keys <= s'.used;
    forall r | 0 <= r < |s'.runs| && HasPending(s'.runs[r]) ensures PendingFits(s', r) {
      PendingFitsKept(s, step, r);
    }
  }

  lemma UniqueRowsKept(s: State, step: Step)
    requires TableInv(s) && Enabled(s, step)
    ensures UniqueRows(Apply(s, step).db.admins)
  {
    var before, after := s.db.admins, Apply(s, step).db.admins;
    match step
    case Commit(r) =>
      assert PendingFits(s, r);
      UniqueRowsExtended(before, s.runs[r].id, NewAdmin(s.configs[r], s.runs[r].realm));
    case InsertAdmin(id, admin) =>
      UniqueRowsExtended(before, id, admin);
    case SetRealms(realms) =>
      forall i, j | i in after && j in after && i != j ensures !Conflicts(after[i], after[j]) {
        assert !Conflicts(before[i], before[j]);
      }
    case _ =>
  }

  lemma UniqueRowsExtended(admins: map<nat, Admin>, id: nat, a: Admin)
    requires UniqueRows(admins) && !ConflictsWithSome(a, admins)
    ensures UniqueRows(admins[id := a])
  {
    var after := admins[id := a];
    forall i, j | i in after && j in after && i != j ensures !Conflicts(after[i], after[j]) {
      if i == id {
        assert !Conflicts(a, admins[j]);
      } else if j == id {
        assert !Conflicts(a, admins[i]);
      } else {
        assert !Conflicts(admins[i], admins[j]);
      }
    }
  }

  lemma FlushedFits(s: State, r: nat, id: nat)
    requires TableInv(s) && Enabled(s, FlushAdmin(r, id)) && HasPending(Apply(s, FlushAdmin(r, id)).runs[r])
    ensures PendingFits(Apply(s, FlushAdmin(r, id)), r)
  {
  }

  /** Only the run that holds the lock can commit, so a pending row sees no commit but its own. */
  lemma PendingSame(s: State, step: Step, r: nat)
    requires LockInv(s) && Enabled(s, step)
    requires r < |s.runs| && HasPending(s.runs[r]) && HasPending(Apply(s, step).runs[r])
    ensures var p, p' := s.runs[r], Apply(s, step).runs[r];
            p'.id == p.id && p'.realm == p.realm && s.used <= Apply(s, step).used && !step.Commit?
  {
  }

  lemma StillNoConflict(s: State, step: Step, a: Admin)
    requires WellFormed(s) && Enabled(s, step) && !step.Commit? && !ConflictsWithSome(a, s.db.admins)
    requires step.InsertAdmin? ==> !Conflicts(a, step.admin)
    ensures !ConflictsWithSome(a, Apply(s, step).db.admins)
  {
    var after := Apply(s, step).db.admins;
    forall i | i in after ensures !Conflicts(a, after[i]) {
      if i in s.db.admins { assert !Conflicts(a, s.db.admins[i]); }
    }
  }

  lemma PendingStaysFit(s: State, step: Step, r: nat)
    requires LockInv(s) && TableInv(s) && Enabled(s, step)
    requires r < |s.runs| && HasPending(s.runs[r]) && HasPending(Apply(s, step).runs[r])
    ensures PendingFits(Apply(s, step), r)
  {
    assert PendingFits(s, r);
    PendingSame(s, step, r);
    var a := NewAdmin(s.configs[r], s.runs[r].realm);
    assert step.InsertAdmin? ==> !Conflicts(step.admin, a);
    StillNoConflict(s, step, a);
  }

  lemma PendingFitsKept(s: State, step: Step, r: nat)
    requires LockInv(s) && TableInv(s) && Enabled(s, step)
    requires r < |s.runs| && HasPending(Apply(s, step).runs[r])
    ensures PendingFits(Apply(s, step), r)
  {
    if HasPending(s.runs[r]) {
      PendingStaysFit(s, step, r);
    } else {
      FlushedFits(s, r, step.id);
    }
  }

  lemma {:induction false} InvariantsHold(s: State, steps: seq<Step>)
    requires LockInv(s) && TableInv(s) && Possible(s, steps)
    ensures LockInv(Exec(s, steps)) && TableInv(Exec(s, steps))
    decreases |steps|
  {
    if steps != [] {
      LockInvKept(s, steps[0]);
      TableInvKept(s, steps[0]);
      InvariantsHold(Apply(s, steps[0]), steps[1..]);
    }
  }

  /** The steps can be taken from s and end in e. */
  predicate Leads(s: State, steps: seq<Step>, e: State) {
    WellFormed(s) && Possible(s, steps) && Exec(s, steps) == e
  }

  lemma One(s: State, step: Step, e: State)
    requires WellFormed(s) && Enabled(s, step) && Apply(s, step) == e
    ensures Leads(s, [step], e)
  {
    assert [step][1..] == [];
  }

  lemma {:induction false} Chain(s: State, a: seq<Step>, m: State, b: seq<Step>, e: State)
    requires Leads(s, a, m) && Leads(m, b, e)
    ensures Leads(s, a + b, e)
    decreases |a|
  {
    if a == [] {
      assert a + b == b;
    } else {
      Chain(Apply(s, a[0]), a[1..], m, b, e);
      assert (a + b)[0] == a[0] && (a + b)[1..] == a[1..] + b;
    }
  }
}
