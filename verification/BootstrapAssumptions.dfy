/** Executions that show which assumptions the bootstrap guarantees rest on. */
module BootstrapAssumptions {
  import opened Prelude
  import opened BootstrapProtocol
  import opened BootstrapTheorems

  /** A run takes the lock and counts the admins. */
  lemma Opens(s: State, r: nat) returns (steps: seq<Step>)
    requires WellFormed(s) && r < |s.runs| && s.runs[r].Waiting? && s.lock.None?
    ensures var seen := if s.iso.ReadCommitted? then s.db else s.runs[r].snapshot;
            Leads(s, steps, s.(lock := Some(r), runs := s.runs[r := CountedAdmins(s.runs[r].snapshot, |seen.admins|)]))
    ensures AuditsKept(steps)
  {
    var s1 := Apply(s, Acquire(r));
    var s2 := Apply(s1, CountAdmins(r));
    One(s, Acquire(r), s1);
    One(s1, CountAdmins(r), s2);
    Chain(s, [Acquire(r)], s1, [CountAdmins(r)], s2);
    assert s2.runs == s.runs[r := s2.runs[r]];
    steps := [Acquire(r)] + [CountAdmins(r)];
  }

  /** It counts the audit rows and finds the realm. */
  lemma Passes(s: State, r: nat, realm: nat) returns (steps: seq<Step>)
    requires WellFormed(s) && r < |s.runs| && s.runs[r].CountedAdmins? && s.runs[r].count == 0
    requires var seen := Visible(s, r);
             seen.audits == [] && realm in seen.realms && IsActiveAdminRealm(seen.realms[realm])
    ensures Leads(s, steps, s.(runs := s.runs[r := RealmKnown(realm)])) && AuditsKept(steps)
  {
    var s1 := Apply(s, CountAudits(r));
    var find := FindRealm(r, Some(realm));
    var s2 := Apply(s1, find);
    One(s, CountAudits(r), s1);
    One(s1, find, s2);
    Chain(s, [CountAudits(r)], s1, [find], s2);
    assert s2.runs == s.runs[r := RealmKnown(realm)];
    steps := [CountAudits(r)] + [find];
  }

  /** It writes both rows and commits. */
  lemma Commits(s: State, r: nat, id: nat) returns (steps: seq<Step>)
    requires WellFormed(s) && r < |s.runs| && s.runs[r].RealmKnown? && s.lock == Some(r)
    requires var realm := s.runs[r].realm;
             realm in s.db.realms && id !in s.used && !ConflictsWithSome(NewAdmin(s.configs[r], realm), s.db.admins)
    ensures AuditsKept(steps)
    ensures Leads(s, steps, s.(lock := None, runs := s.runs[r := Done(Created(id))], used := s.used + {id},
               db := s.db.(admins := s.db.admins[id := NewAdmin(s.configs[r], s.runs[r].realm)],
                           audits := s.db.audits + [AuditOf(s.configs[r], r, id)])))
  {
    var s1 := Apply(s, FlushAdmin(r, id));
    var s2 := Apply(s1, FlushAudit(r));
    var s3 := Apply(s2, Commit(r));
    One(s, FlushAdmin(r, id), s1);
    One(s1, FlushAudit(r), s2);
    One(s2, Commit(r), s3);
    Chain(s, [FlushAdmin(r, id)], s1, [FlushAudit(r)], s2);
    Chain(s, [FlushAdmin(r, id)] + [FlushAudit(r)], s2, [Commit(r)], s3);
    assert s3.runs == s.runs[r := Done(Created(id))];
    steps := [FlushAdmin(r, id)] + [FlushAudit(r)] + [Commit(r)];
  }

  function Ann(): Config { Config("ann", "ann@x.io", "@a", "op", false, true) }

  function Bob(): Config { Config("bob", "bob@x.io", "@b", "op", false, true) }

  function EmptyDb(): Db { Db(map[], [], map[7 := Realm("admin", "admin", "active")]) }

  /** Two operators with different logins, an active admin realm, no admins. */
  function Stage(iso: Isolation): State {
    State(iso, EmptyDb(), {}, None, [Ann(), Bob()], [Ready, Ready])
  }

  /** Both operators have asked for the lock. */
  function BothWaiting(iso: Isolation): State {
    Stage(iso).(runs := [Waiting(EmptyDb()), Waiting(EmptyDb())])
  }

  /** The first operator has succeeded; the tables then hold `db`. */
  function AnnDone(iso: Isolation, db: Db): State {
    Stage(iso).(runs := [Done(Created(0)), Waiting(EmptyDb())], used := {0}, db := db)
  }

  function AnnDb(): Db {
    EmptyDb().(admins := map[0 := NewAdmin(Ann(), 7)], audits := [AuditOf(Ann(), 0, 0)])
  }

  lemma BothAsk(iso: Isolation) returns (steps: seq<Step>)
    ensures Leads(Stage(iso), steps, BothWaiting(iso)) && AuditsKept(steps)
  {
    var s1 := Apply(Stage(iso), CheckSecrets(0));
    One(Stage(iso), CheckSecrets(0), s1);
    var s2 := Apply(s1, CheckSecrets(1));
    assert s2.runs == BothWaiting(iso).runs;
    One(s1, CheckSecrets(1), s2);
    Chain(Stage(iso), [CheckSecrets(0)], s1, [CheckSecrets(1)], s2);
    steps := [CheckSecrets(0)] + [CheckSecrets(1)];
  }

  /** The first operator has counted the admins and not yet the audit rows. */
  function AnnCounted(iso: Isolation): State {
    Stage(iso).(lock := Some(0), runs := [CountedAdmins(EmptyDb(), 0), Waiting(EmptyDb())])
  }

  lemma AnnOpens(iso: Isolation) returns (steps: seq<Step>)
    ensures Leads(Stage(iso), steps, AnnCounted(iso)) && AuditsKept(steps)
  {
    var s := BothWaiting(iso);
    steps := BothAsk(iso);
    var opening := Opens(s, 0);
    assert AnnCounted(iso).runs == s.runs[0 := CountedAdmins(EmptyDb(), 0)];
    Chain(Stage(iso), steps, s, opening, AnnCounted(iso));
    steps := steps + opening;
  }

  /** From there to success, with an admin table that holds nobody with the first operator's login. */
  lemma AnnCloses(s: State) returns (steps: seq<Step>)
    requires WellFormed(s) && s.configs == [Ann(), Bob()] && s.lock == Some(0)
    requires s.runs == [CountedAdmins(EmptyDb(), 0), Waiting(EmptyDb())]
    requires s.db.audits == [] && s.db.realms == EmptyDb().realms && 0 !in s.used
    requires !ConflictsWithSome(NewAdmin(Ann(), 7), s.db.admins)
    ensures AuditsKept(steps)
    ensures Leads(s, steps, s.(lock := None, runs := [Done(Created(0)), Waiting(EmptyDb())], used := s.used + {0},
               db := s.db.(admins := s.db.admins[0 := NewAdmin(Ann(), 7)], audits := [AuditOf(Ann(), 0, 0)])))
  {
    var s2 := s.(runs := [RealmKnown(7), Waiting(EmptyDb())]);
    var passing := Passes(s, 0, 7);
    assert s2.runs == s.runs[0 := RealmKnown(7)];
    var committing := Commits(s2, 0, 0);
    var runs := [Done(Created(0)), Waiting(EmptyDb())];
    assert runs == s2.runs[0 := Done(Created(0))];
    Chain(s, passing, s2, committing, Exec(s2, committing));
    steps := passing + committing;
  }

  lemma AnnRuns(iso: Isolation) returns (steps: seq<Step>)
    ensures Leads(Stage(iso), steps, AnnDone(iso, AnnDb())) && AuditsKept(steps)
  {
    steps := AnnOpens(iso);
    var closing := AnnCloses(AnnCounted(iso));
    Chain(Stage(iso), steps, AnnCounted(iso), closing, AnnDone(iso, AnnDb()));
    steps := steps + closing;
  }

  /** The second operator's run from tables with no conflicting admin, when what it sees is empty. */
  lemma BobRuns(iso: Isolation, db: Db) returns (steps: seq<Step>, e: State)
    requires 7 in db.realms && !ConflictsWithSome(NewAdmin(Bob(), 7), db.admins)
    requires iso.ReadCommitted? ==> db == EmptyDb()
    ensures Leads(AnnDone(iso, db), steps, e) && AuditsKept(steps)
    ensures e.runs == [Done(Created(0)), Done(Created(1))]
  {
    var s := AnnDone(iso, db);
    var s1 := s.(lock := Some(1), runs := [Done(Created(0)), CountedAdmins(EmptyDb(), 0)]);
    var opening := Opens(s, 1);
    assert s1.runs == s.runs[1 := CountedAdmins(EmptyDb(), 0)];
    var s2 := s1.(runs := [Done(Created(0)), RealmKnown(7)]);
    var passing := Passes(s1, 1, 7);
    assert s2.runs == s1.runs[1 := RealmKnown(7)];
    Chain(s, opening, s1, passing, s2);
    var committing := Commits(s2, 1, 1);
    e := Exec(s2, committing);
    Chain(s, opening + passing, s2, committing, e);
    steps := opening + passing + committing;
  }

  /** Were the snapshot taken at the transaction's first statement, two waiting operators would both succeed. */
  lemma SnapshotAdmitsTwo()
    ensures Initial(Stage(Snapshot))
    ensures exists steps, e :: Leads(Stage(Snapshot), steps, e) && AuditsKept(steps)
                               && e.runs == [Done(Created(0)), Done(Created(1))]
  {
    var first := AnnRuns(Snapshot);
    assert !ConflictsWithSome(NewAdmin(Bob(), 7), AnnDb().admins) by {
      assert Bob().login != Ann().login && Bob().email != Ann().email;
    }
    var second, e := BobRuns(Snapshot, AnnDb());
    Chain(Stage(Snapshot), first, AnnDone(Snapshot, AnnDb()), second, e);
    assert AuditsKept(first + second);
  }

  /** Deleting both the admin and the bootstrap audit row reopens the door. */
  lemma PurgeAdmitsTwo()
    ensures Initial(Stage(ReadCommitted))
    ensures exists steps, e :: Leads(Stage(ReadCommitted), steps, e)
                               && e.runs == [Done(Created(0)), Done(Created(1))]
  {
    var s := Stage(ReadCommitted);
    var first := AnnRuns(ReadCommitted);
    var t := AnnDone(ReadCommitted, AnnDb());
    var t1 := Apply(t, DeleteAdmin(0));
    One(t, DeleteAdmin(0), t1);
    var t2 := AnnDone(ReadCommitted, EmptyDb());
    One(t1, PurgeAudits, t2);
    Chain(s, first, t, [DeleteAdmin(0)], t1);
    Chain(s, first + [DeleteAdmin(0)], t1, [PurgeAudits], t2);
    var second, e := BobRuns(ReadCommitted, EmptyDb());
    Chain(s, first + [DeleteAdmin(0)] + [PurgeAudits], t2, second, e);
  }

  function Eve(): Admin { Admin(Some(7), "eve", None, false, false) }

  /** Another writer has inserted an admin after the bootstrap counted them. */
  function Sneaked(): State {
    AnnCounted(ReadCommitted).(used := {5}, db := EmptyDb().(admins := map[5 := Eve()]))
  }

  lemma Sneak() returns (steps: seq<Step>)
    ensures Leads(AnnCounted(ReadCommitted), steps, Sneaked()) && AuditsKept(steps)
  {
    steps := [InsertAdmin(5, Eve())];
    assert {} + {5} == {5};
    One(AnnCounted(ReadCommitted), InsertAdmin(5, Eve()), Sneaked());
  }

  lemma CloseBesideEve() returns (steps: seq<Step>, e: State)
    ensures Leads(Sneaked(), steps, e) && AuditsKept(steps)
    ensures WellFormed(e) && |e.runs| == 2 && e.runs[0] == Done(Created(0)) && |e.db.admins| == 2
  {
    assert !Conflicts(NewAdmin(Ann(), 7), Eve());
    steps := AnnCloses(Sneaked());
    e := Exec(Sneaked(), steps);
    assert e.db.admins.Keys == {0, 5};
    assert |e.db.admins| == |{0, 5}|;
  }

  /** The lock does not stop other writers: an admin inserted after the count survives beside the bootstrapped one. */
  lemma FirstAdminNeedNotBeAlone()
    ensures Initial(Stage(ReadCommitted))
    ensures exists steps, e :: Leads(Stage(ReadCommitted), steps, e) && AuditsKept(steps)
                               && |e.runs| == 2 && e.runs[0] == Done(Created(0)) && |e.db.admins| == 2
  {
    var steps := AnnOpens(ReadCommitted);
    var sneak := Sneak();
    Chain(Stage(ReadCommitted), steps, AnnCounted(ReadCommitted), sneak, Sneaked());
    var closing, e := CloseBesideEve();
    Chain(Stage(ReadCommitted), steps + sneak, Sneaked(), closing, e);
    assert AuditsKept(steps + sneak + closing);
  }
}
