/** What the rows of the admin table and the bootstrap audit rows say, over whole executions. */
module BootstrapRecords {
  import opened Prelude
  import opened BootstrapProtocol
  import opened BootstrapTheorems

  // ------------------------------------------------------------------------------------------
  // Executions, cut before their last step.

  lemma {:induction false} CutLast(s: State, steps: seq<Step>)
    requires WellFormed(s) && steps != [] && Possible(s, steps)
    ensures var n := |steps| - 1;
            && Possible(s, steps[..n]) && Enabled(Exec(s, steps[..n]), steps[n])
            && Exec(s, steps) == Apply(Exec(s, steps[..n]), steps[n])
    decreases |steps|
  {
    var n := |steps| - 1;
    if n == 0 {
      assert steps == [steps[0]] && steps[1..] == [];
    } else {
      assert steps[..n][0] == steps[0] && steps[..n][1..] == steps[1..][..n - 1] && steps[1..][n - 1] == steps[n];
      CutLast(Apply(s, steps[0]), steps[1..]);
    }
  }

  lemma {:induction false} PrefixPossible(s: State, steps: seq<Step>, n: nat)
    requires WellFormed(s) && Possible(s, steps) && n <= |steps|
    ensures Possible(s, steps[..n])
    decreases |steps|
  {
    if n < |steps| {
      CutLast(s, steps);
      var shorter := steps[..|steps| - 1];
      PrefixPossible(s, shorter, n);
      assert shorter[..n] == steps[..n];
    } else {
      assert steps[..n] == steps;
    }
  }

  // ------------------------------------------------------------------------------------------
  // The realm a run works with is the one its query named.

  function RealmOf(p: Phase): Option<nat> {
    if p.RealmKnown? || p.Flushed? || p.AuditWritten? then Some(p.realm) else None
  }

  /** After these steps run r is past the gate, and what it sees holds realm i as the active admin realm. */
  ghost predicate SeesRealm(s: State, steps: seq<Step>, r: nat, i: nat)
    requires WellFormed(s)
  {
    && Possible(s, steps)
    && var m := Exec(s, steps);
    && r < |m.runs| && m.runs[r].Passed?
    && i in Visible(m, r).realms && Visible(m, r).realms[i] == Realm("admin", "admin", "active")
  }

  /** Step j is the realm query of run r; it named realm i, which what it saw holds as the active admin realm. */
  ghost predicate Named(s: State, steps: seq<Step>, j: nat, r: nat, i: nat)
    requires WellFormed(s)
  {
    j < |steps| && steps[j] == FindRealm(r, Some(i)) && SeesRealm(s, steps[..j], r, i)
  }

  lemma NamedStays(s: State, steps: seq<Step>, j: nat, r: nat, i: nat)
    requires WellFormed(s) && steps != [] && Named(s, steps[..|steps| - 1], j, r, i)
    ensures Named(s, steps, j, r, i)
  {
    PrefixOfPrefix(steps, j);
  }

  lemma PrefixOfPrefix(steps: seq<Step>, j: nat)
    requires j < |steps| - 1
    ensures steps[..|steps| - 1][..j] == steps[..j] && steps[..|steps| - 1][j] == steps[j]
  {
  }

  /** A step that brings a realm into a run's phase is its realm query; any other leaves the realm it has. */
  lemma RealmStep(s: State, step: Step, r: nat)
    requires WellFormed(s) && Enabled(s, step) && r < |s.runs| && RealmOf(Apply(s, step).runs[r]).Some?
    ensures RealmOf(s.runs[r]) == RealmOf(Apply(s, step).runs[r])
            || (&& step == FindRealm(r, RealmOf(Apply(s, step).runs[r])) && s.runs[r].Passed?
                && var i := RealmOf(Apply(s, step).runs[r]).value;
                && i in Visible(s, r).realms && Visible(s, r).realms[i] == Realm("admin", "admin", "active"))
  {
  }

  lemma {:induction false} RealmWasNamed(s: State, steps: seq<Step>, r: nat)
    requires WellFormed(s) && Possible(s, steps) && r < |s.runs| && s.runs[r].Ready?
    requires RealmOf(Exec(s, steps).runs[r]).Some?
    ensures exists j: nat :: Named(s, steps, j, r, RealmOf(Exec(s, steps).runs[r]).value)
    decreases |steps|
  {
    if steps != [] {
      var n := |steps| - 1;
      CutLast(s, steps);
      var m := Exec(s, steps[..n]);
      var i := RealmOf(Exec(s, steps).runs[r]).value;
      RealmStep(m, steps[n], r);
      if RealmOf(m.runs[r]) == Some(i) {
        RealmWasNamed(s, steps[..n], r);
        var j: nat :| Named(s, steps[..n], j, r, i);
        NamedStays(s, steps, j, r, i);
      } else {
        assert Named(s, steps, n, r, i);
      }
    }
  }

  /**
   The rows a commit adds, over the whole execution that leads to it: the admin has the run's login and e-mail, is
   an owner with a second factor, and belongs to the realm the run's own query named and saw to be the active
   admin realm; the audit row tells of that admin and of who ran the script from where.
   */
  lemma CommitWrites(s: State, steps: seq<Step>, r: nat)
    requires WellFormed(s) && Possible(s, steps) && r < |s.runs| && s.runs[r].Ready?
    requires steps != [] && steps[|steps| - 1] == Commit(r)
    ensures Possible(s, steps[..|steps| - 1])
    ensures var before, after, c := Exec(s, steps[..|steps| - 1]), Exec(s, steps), s.configs[r];
            exists j: nat, i: nat, id: nat ::
              && Named(s, steps, j, r, i) && after.runs[r] == Done(Created(id))
              && after.db.admins == before.db.admins[id := Admin(Some(i), c.login, Some(c.email), true, true)]
              && after.db.audits == before.db.audits + [AuditRow(r, id, c.login, c.email, c.ownerHandle, c.sourceIp)]
  {
    var n := |steps| - 1;
    CutLast(s, steps);
    var before, after, c := Exec(s, steps[..n]), Exec(s, steps), s.configs[r];
    var i, id := before.runs[r].realm, before.runs[r].id;
    RealmWasNamed(s, steps[..n], r);
    var j: nat :| Named(s, steps[..n], j, r, i);
    NamedStays(s, steps, j, r, i);
    CommitRows(before, r);
    assert Named(s, steps, j, r, i) && after.runs[r] == Done(Created(id));
  }

  lemma CommitRows(s: State, r: nat)
    requires WellFormed(s) && Enabled(s, Commit(r))
    ensures var e, c, p := Apply(s, Commit(r)), s.configs[r], s.runs[r];
            && e.runs[r] == Done(Created(p.id))
            && e.db.admins == s.db.admins[p.id := Admin(Some(p.realm), c.login, Some(c.email), true, true)]
            && e.db.audits == s.db.audits + [AuditRow(r, p.id, c.login, c.email, c.ownerHandle, c.sourceIp)]
  {
  }

  // ------------------------------------------------------------------------------------------
  // The constraints of the admin table.

  /** Within a realm no two admins share a login or an e-mail address. */
  predicate Unique(admins: map<nat, Admin>) {
    forall i, j :: i in admins && j in admins && i != j
                   && admins[i].realm.Some? && admins[i].realm == admins[j].realm ==>
      admins[i].login != admins[j].login && (admins[i].email.Some? ==> admins[i].email != admins[j].email)
  }

  /** Every admin's realm exists, or the admin has none. */
  predicate References(db: Db) {
    forall i :: i in db.admins && db.admins[i].realm.Some? ==> db.admins[i].realm.value in db.realms
  }

  lemma UniqueIff(admins: map<nat, Admin>)
    ensures UniqueRows(admins) <==> Unique(admins)
  {
    if UniqueRows(admins) {
      forall i, j | i in admins && j in admins && i != j && admins[i].realm.Some? && admins[i].realm == admins[j].realm
        ensures admins[i].login != admins[j].login && (admins[i].email.Some? ==> admins[i].email != admins[j].email)
      {
        assert !Conflicts(admins[i], admins[j]);
      }
    }
  }

  lemma ReferencesStep(s: State, step: Step)
    requires TableInv(s) && Enabled(s, step) && References(s.db)
    ensures References(Apply(s, step).db)
  {
    if step.Commit? {
      assert HasPending(s.runs[step.run]);
      assert PendingFits(s, step.run);
    }
  }

  /**
   Whatever bootstrap runs and other writers do, logins and addresses stay unique within a realm and every
   admin's realm exists: deleting a realm leaves its admins without one.
   */
  lemma {:induction false} ConstraintsHold(s: State, steps: seq<Step>)
    requires LockInv(s) && TableInv(s) && Possible(s, steps) && Unique(s.db.admins) && References(s.db)
    ensures Unique(Exec(s, steps).db.admins) && References(Exec(s, steps).db)
    decreases |steps|
  {
    if steps != [] {
      LockInvKept(s, steps[0]);
      TableInvKept(s, steps[0]);
      ReferencesStep(s, steps[0]);
      UniqueIff(Apply(s, steps[0]).db.admins);
      ConstraintsHold(Apply(s, steps[0]), steps[1..]);
    }
  }
}
