/** The bootstrap transaction as the operator's script runs it, against the tables it changes. */
module FirstAdmin {
  import opened Prelude
  import opened BootstrapProtocol

  /** Steps of the script itself, its process alive throughout. */
  predicate OwnSteps(steps: seq<Step>) {
    forall k :: 0 <= k < |steps| ==> OfRun(steps[k]) && !steps[k].Crash?
  }

  /**
   The only admin is the bootstrapped one, an owner with a second factor in an active admin realm that was there
   before, and the only bootstrap audit row tells of it.
   */
  predicate WroteBoth(config: Config, id: nat, before: Db, after: Db) {
    && before.admins == map[] && before.audits == [] && after.realms == before.realms
    && (exists realm | realm in before.realms ::
          && before.realms[realm] == Realm("admin", "admin", "active")
          && after.admins == map[id := Admin(Some(realm), config.login, Some(config.email), true, true)])
    && after.audits == [AuditRow(0, id, config.login, config.email, config.ownerHandle, config.sourceIp)]
  }

  /** No realm is the active admin realm. */
  predicate NoAdminRealm(db: Db) {
    forall i :: i in db.realms ==> db.realms[i] != Realm("admin", "admin", "active")
  }

  class AdminDatabase {
    var db: Db
    var drawn: set<nat>
    var locked: bool

    constructor (db: Db)
      requires UniqueRows(db.admins)
      ensures this.db == db && drawn == db.admins.Keys && !locked
    {
      this.db, drawn, locked := db, db.admins.Keys, false;
    }

    /** The protocol state in which one operator with this configuration is at the given phase. */
    ghost function View(config: Config, p: Phase): State
      reads this
    {
      State(ReadCommitted, db, drawn, if locked then Some(0) else None, [config], [p])
    }

    /**
     One undisturbed run. Which error is raised is decided in the order of the script; success means
     both tables were empty, and leaves exactly one admin and one bootstrap audit row.
     */
    method BootstrapFirstAdmin(config: Config, id: nat) returns (outcome: Outcome, ghost steps: seq<Step>)
      requires !locked && id !in drawn
      modifies this
      ensures Leads(old(View(config, Ready)), steps, View(config, Done(outcome)))
      ensures OwnSteps(steps)
      ensures !locked && (outcome.Failed? ==> db == old(db))
      ensures outcome == Failed(TotpKeyRequired) <==> config.totpKeyMissing
      ensures outcome == Failed(InvalidTotpCode) <==> !config.totpKeyMissing && !config.codeVerifies
      ensures outcome == Failed(BootstrapLocked) <==>
              !config.totpKeyMissing && config.codeVerifies && (old(db.admins) != map[] || old(db.audits) != [])
      ensures outcome == Failed(RealmMissing) <==>
              && !config.totpKeyMissing && config.codeVerifies && old(db.admins) == map[] && old(db.audits) == []
              && NoAdminRealm(old(db))
      ensures outcome == Created(id) <==>
              && !config.totpKeyMissing && config.codeVerifies && old(db.admins) == map[] && old(db.audits) == []
              && !NoAdminRealm(old(db))
      ensures outcome.Created? ==> WroteBoth(config, id, old(db), db)
    {
      ghost var start := View(config, Ready);
      steps := [CheckSecrets(0)];
      if config.totpKeyMissing {
        outcome := Failed(TotpKeyRequired);
        One(start, CheckSecrets(0), View(config, Done(outcome)));
        return;
      }
      if !config.codeVerifies {
        outcome := Failed(InvalidTotpCode);
        One(start, CheckSecrets(0), View(config, Done(outcome)));
        return;
      }
      ghost var waiting := View(config, Waiting(db));
      One(start, CheckSecrets(0), waiting);
      outcome, steps := Transaction(config, id, start, steps);
    }

    /** The block that holds the advisory lock, up to the gate. */
    method Transaction(config: Config, id: nat, ghost start: State, ghost done: seq<Step>)
      returns (outcome: Outcome, ghost steps: seq<Step>)
      requires !locked && id !in drawn && Leads(start, done, View(config, Waiting(db))) && OwnSteps(done)
      modifies this
      ensures Leads(start, steps, View(config, Done(outcome))) && OwnSteps(steps)
      ensures !locked && (outcome.Failed? ==> db == old(db))
      ensures outcome == Failed(BootstrapLocked) <==> old(db.admins) != map[] || old(db.audits) != []
      ensures outcome == Failed(BootstrapLocked) || outcome == Failed(RealmMissing) || outcome == Created(id)
      ensures outcome == Failed(RealmMissing) ==> NoAdminRealm(db)
      ensures outcome.Created? ==> WroteBoth(config, id, old(db), db)
    {
      var adminCount;
      adminCount, steps := LockAndCount(config, start, done);
      ghost var s2 := View(config, CountedAdmins(db, adminCount));
      var bootstrapCount := |db.audits|;
      if adminCount != 0 || bootstrapCount != 0 {
        outcome := Failed(BootstrapLocked);
        ghost var s3 := View(config, RollingBack(BootstrapLocked));
        steps := Extend(start, steps, s2, CountAudits(0), s3);
        steps := RollBack(config, start, steps, BootstrapLocked);
      } else {
        ghost var s3 := View(config, Passed(db));
        steps := Extend(start, steps, s2, CountAudits(0), s3);
        outcome, steps := Create(config, id, start, steps);
      }
    }

    /** Taking the advisory lock and counting the admins. */
    method LockAndCount(config: Config, ghost start: State, ghost done: seq<Step>)
      returns (adminCount: nat, ghost steps: seq<Step>)
      requires !locked && Leads(start, done, View(config, Waiting(db))) && OwnSteps(done)
      modifies this`locked
      ensures locked && adminCount == |db.admins|
      ensures Leads(start, steps, View(config, CountedAdmins(db, adminCount))) && OwnSteps(steps)
    {
      ghost var s0 := View(config, Waiting(db));
      locked := true;
      ghost var s1 := View(config, Holding(db));
      steps := Extend(start, done, s0, Acquire(0), s1);
      adminCount := |db.admins|;
      ghost var s2 := View(config, CountedAdmins(db, adminCount));
      steps := Extend(start, steps, s1, CountAdmins(0), s2);
    }

    /** What follows the gate. */
    method Create(config: Config, id: nat, ghost start: State, ghost done: seq<Step>)
      returns (outcome: Outcome, ghost steps: seq<Step>)
      requires locked && id !in drawn && db.admins == map[] && db.audits == []
      requires Leads(start, done, View(config, Passed(db))) && OwnSteps(done)
      modifies this
      ensures Leads(start, steps, View(config, Done(outcome))) && OwnSteps(steps)
      ensures !locked && (outcome.Failed? ==> db == old(db))
      ensures outcome == Failed(RealmMissing) || outcome == Created(id)
      ensures outcome == Failed(RealmMissing) ==> NoAdminRealm(db)
      ensures outcome.Created? ==> WroteBoth(config, id, old(db), db)
    {
      ghost var s0 := View(config, Passed(db));
      if realm :| realm in db.realms && IsActiveAdminRealm(db.realms[realm]) {
        ghost var s1 := View(config, RealmKnown(realm));
        steps := Extend(start, done, s0, FindRealm(0, Some(realm)), s1);
        outcome, steps := WriteBoth(config, id, realm, start, steps);
      } else {
        outcome := Failed(RealmMissing);
        ghost var s1 := View(config, RollingBack(RealmMissing));
        steps := Extend(start, done, s0, FindRealm(0, None), s1);
        steps := RollBack(config, start, steps, RealmMissing);
      }
    }

    /** Leaving the transaction block by an exception. */
    method RollBack(config: Config, ghost start: State, ghost done: seq<Step>, ghost code: Code)
      returns (ghost steps: seq<Step>)
      requires locked && Leads(start, done, View(config, RollingBack(code)))
      modifies this`locked
      ensures !locked && steps == done + [Rollback(0)]
      ensures Leads(start, steps, View(config, Done(Failed(code))))
    {
      ghost var before := View(config, RollingBack(code));
      locked := false;
      steps := Extend(start, done, before, Rollback(0), View(config, Done(Failed(code))));
    }

    /** Adding both rows and leaving the block normally. */
    method WriteBoth(config: Config, id: nat, realm: nat, ghost start: State, ghost done: seq<Step>)
      returns (outcome: Outcome, ghost steps: seq<Step>)
      requires locked && id !in drawn && realm in db.realms && db.admins == map[] && db.audits == []
      requires Leads(start, done, View(config, RealmKnown(realm)))
      modifies this
      ensures !locked && outcome == Created(id)
      ensures db.admins == map[id := Admin(Some(realm), config.login, Some(config.email), true, true)]
      ensures db.audits == [AuditRow(0, id, config.login, config.email, config.ownerHandle, config.sourceIp)]
      ensures db.realms == old(db.realms)
      ensures steps == done + [FlushAdmin(0, id)] + [FlushAudit(0)] + [Commit(0)]
      ensures Leads(start, steps, View(config, Done(outcome)))
    {
      ghost var s0 := View(config, RealmKnown(realm));
      var adminUser := Admin(Some(realm), config.login, Some(config.email), true, true);
      drawn := drawn + {id};
      ghost var s1 := View(config, Flushed(realm, id));
      steps := Extend(start, done, s0, FlushAdmin(0, id), s1);
      var auditLog := AuditRow(0, id, config.login, config.email, config.ownerHandle, config.sourceIp);
      ghost var s2 := View(config, AuditWritten(realm, id));
      steps := Extend(start, steps, s1, FlushAudit(0), s2);
      db := db.(admins := db.admins[id := adminUser], audits := db.audits + [auditLog]);
      locked := false;
      outcome := Created(id);
      steps := Extend(start, steps, s2, Commit(0), View(config, Done(outcome)));
    }
  }

  /** One more step at the end of an execution. */
  lemma Extend(s: State, steps: seq<Step>, m: State, step: Step, e: State) returns (longer: seq<Step>)
    requires Leads(s, steps, m) && Enabled(m, step) && Apply(m, step) == e
    ensures longer == steps + [step] && Leads(s, longer, e)
  {
    One(m, step, e);
    Chain(s, steps, m, [step], e);
    longer := steps + [step];
  }
}
