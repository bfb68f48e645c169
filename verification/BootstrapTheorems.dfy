/** What holds of every interleaving of bootstrap runs and other writers. */
module BootstrapTheorems {
  import opened Prelude
  import opened BootstrapProtocol

  predicate IsCreated(p: Phase) {
    p.Done? && p.outcome.Created?
  }

  // ------------------------------------------------------------------------------------------
  // At most one bootstrap.

  /** Run r reported success, and the audit log holds its row and nothing else. */
  predicate OwnsLog(s: State, r: int)
    requires WellFormed(s)
  {
    0 <= r < |s.runs| && IsCreated(s.runs[r]) && s.db.audits == [AuditOf(s.configs[r], r, s.runs[r].outcome.admin)]
  }

  predicate Bootstrapped(s: State)
    requires WellFormed(s)
  {
    exists r | 0 <= r < |s.runs| :: OwnsLog(s, r)
  }

  /** What the gate guarantees when each statement sees the committed state. */
  predicate GateInv(s: State, initial: seq<AuditRow>) {
    && LockInv(s) && s.iso.ReadCommitted?
    && (forall r :: 0 <= r < |s.runs| && PastGate(s.runs[r]) ==> s.db.audits == [])
    && (forall r :: 0 <= r < |s.runs| && IsCreated(s.runs[r]) ==> initial == [] && OwnsLog(s, r))
    && (s.db.audits == initial || Bootstrapped(s))
  }

  lemma GateInvKept(s: State, step: Step, initial: seq<AuditRow>)
    requires GateInv(s, initial) && Enabled(s, step) && !step.PurgeAudits?
    ensures GateInv(Apply(s, step), initial)
  {
    LockInvKept(s, step);
    if step.Commit? {
      CommitKeepsGate(s, step.run, initial);
    } else {
      OtherStepKeepsGate(s, step, initial);
    }
  }

  lemma CommitKeepsGate(s: State, r: nat, initial: seq<AuditRow>)
    requires GateInv(s, initial) && Enabled(s, Commit(r))
    requires LockInv(Apply(s, Commit(r)))
    ensures GateInv(Apply(s, Commit(r)), initial)
  {
    var s' := Apply(s, Commit(r));
    assert PastGate(s.runs[r]);
    assert OwnsLog(s', r);
    forall q | 0 <= q < |s.runs| && q != r ensures !IsCreated(s'.runs[q]) && !PastGate(s'.runs[q]) {
      if IsCreated(s.runs[q]) {
        assert false;
      }
    }
    assert initial == [];
  }

  lemma DoneUntouched(s: State, step: Step, r: nat)
    requires WellFormed(s) && Enabled(s, step) && r < |s.runs| && s.runs[r].Done?
    ensures Apply(s, step).runs[r] == s.runs[r]
  {
  }

  /** Only a commit makes a run succeed or adds an audit row, and the gate lets nobody past a row. */
  lemma OtherStepEffect(s: State, step: Step)
    requires WellFormed(s) && s.iso.ReadCommitted? && Enabled(s, step) && !step.PurgeAudits? && !step.Commit?
    ensures var s' := Apply(s, step);
            && s'.db.audits == s.db.audits
            && (forall r :: 0 <= r < |s.runs| && IsCreated(s'.runs[r]) ==> s'.runs[r] == s.runs[r])
            && (forall r :: 0 <= r < |s.runs| && PastGate(s'.runs[r]) ==> PastGate(s.runs[r]) || s.db.audits == [])
  {
  }

  lemma OtherStepKeepsGate(s: State, step: Step, initial: seq<AuditRow>)
    requires GateInv(s, initial) && Enabled(s, step) && !step.PurgeAudits? && !step.Commit?
    requires LockInv(Apply(s, step))
    ensures GateInv(Apply(s, step), initial)
  {
    var s' := Apply(s, step);
    OtherStepEffect(s, step);
    forall r | 0 <= r < |s.runs| && IsCreated(s'.runs[r]) ensures initial == [] && OwnsLog(s', r) {
      assert OwnsLog(s, r);
    }
    if s.db.audits != initial {
      var r: nat :| r < |s.runs| && OwnsLog(s, r);
      DoneUntouched(s, step, r);
      assert OwnsLog(s', r);
    }
  }

  lemma {:induction false} GateInvHolds(s: State, steps: seq<Step>, initial: seq<AuditRow>)
    requires GateInv(s, initial) && Possible(s, steps) && AuditsKept(steps)
    ensures GateInv(Exec(s, steps), initial)
    decreases |steps|
  {
    if steps != [] {
      GateInvKept(s, steps[0], initial);
      assert AuditsKept(steps[1..]);
      GateInvHolds(Apply(s, steps[0]), steps[1..], initial);
    }
  }

  /** In every interleaving at most one run commits; its audit row and its success stand or fall together. */
  lemma AtMostOneBootstrap(s: State, steps: seq<Step>)
    requires Initial(s) && s.iso.ReadCommitted? && Possible(s, steps) && AuditsKept(steps)
    ensures var e := Exec(s, steps);
            && (forall r, q :: 0 <= r < |e.runs| && 0 <= q < |e.runs| && IsCreated(e.runs[r]) && IsCreated(e.runs[q])
                               ==> r == q)
            && (forall r :: 0 <= r < |e.runs| && IsCreated(e.runs[r]) ==>
                              s.db.audits == [] && e.db.audits == [AuditOf(e.configs[r], r, e.runs[r].outcome.admin)])
            && (e.db.audits != s.db.audits ==> s.db.audits == [] && Bootstrapped(e))
  {
    GateInvHolds(s, steps, s.db.audits);
    var e := Exec(s, steps);
    forall r, q | 0 <= r < |e.runs| && 0 <= q < |e.runs| && IsCreated(e.runs[r]) && IsCreated(e.runs[q])
      ensures r == q
    {
      assert OwnsLog(e, r) && OwnsLog(e, q);
      assert e.db.audits[0].run == r;
    }
  }

  /** The one step that adds a bootstrap audit row adds the admin it names, owner role and second factor included. */
  lemma AdminAndAuditTogether(s: State, step: Step)
    requires LockInv(s) && TableInv(s) && Enabled(s, step) && !step.PurgeAudits?
    ensures var s' := Apply(s, step);
            && (s'.db.audits == s.db.audits ||
                (exists row: AuditRow ::
                   && s'.db.audits == s.db.audits + [row]
                   && row.run < |s.runs| && s'.runs[row.run] == Done(Created(row.admin)) && !s.runs[row.run].Done?
                   && row.admin !in s.db.admins && s'.db.admins.Keys == s.db.admins.Keys + {row.admin}
                   && s'.db.admins[row.admin].login == row.login && s'.db.admins[row.admin].email == Some(row.email)
                   && s'.db.admins[row.admin].owner && s'.db.admins[row.admin].totpEnabled))
            && (OfRun(step) && s'.db != s.db ==> s'.db.audits != s.db.audits)
  {
    if step.Commit? {
      var r := step.run;
      assert PendingFits(s, r);
      var row := AuditOf(s.configs[r], r, s.runs[r].id);
      assert Apply(s, step).db.audits == s.db.audits + [row];
      assert Apply(s, step).db.admins.Keys == s.db.admins.Keys + {row.admin};
    }
  }

  // ------------------------------------------------------------------------------------------
  // After a bootstrap the door stays shut.

  /** A run that had not read the audit count when the log was already non-empty. */
  predicate Late(p: Phase) {
    p.Waiting? || p.Holding? || p.CountedAdmins?
    || p == RollingBack(BootstrapLocked) || p == Done(Failed(BootstrapLocked))
  }

  lemma LateStaysLate(s: State, step: Step, r: nat)
    requires WellFormed(s) && s.iso.ReadCommitted? && s.db.audits != [] && Enabled(s, step)
    requires r < |s.runs| && Late(s.runs[r]) && step != Crash(r) && !step.PurgeAudits?
    ensures Late(Apply(s, step).runs[r]) && Apply(s, step).db.audits != []
  {
  }

  /**
   Once a bootstrap row is committed, a run that had not yet counted the rows can only end with
   `bootstrap_locked`, whatever happens to the admins, unless its process dies.
   */
  lemma {:induction false} LockedForever(s: State, steps: seq<Step>, r: nat)
    requires WellFormed(s) && s.iso.ReadCommitted? && s.db.audits != []
    requires r < |s.runs| && Late(s.runs[r])
    requires Possible(s, steps) && AuditsKept(steps) && Crash(r) !in steps
    ensures Late(Exec(s, steps).runs[r])
    ensures Exec(s, steps).runs[r].Done? ==> Exec(s, steps).runs[r] == Done(Failed(BootstrapLocked))
    decreases |steps|
  {
    if steps != [] {
      assert steps[0] != Crash(r) && !steps[0].PurgeAudits?;
      LateStaysLate(s, steps[0], r);
      assert AuditsKept(steps[1..]);
      LockedForever(Apply(s, steps[0]), steps[1..], r);
    }
  }

  // ------------------------------------------------------------------------------------------
  // A failed run leaves no trace.

  /** The steps that are not run r's. */
  function Without(steps: seq<Step>, r: nat): seq<Step> {
    if steps == [] then []
    else if OfRun(steps[0]) && steps[0].run == r then Without(steps[1..], r)
    else [steps[0]] + Without(steps[1..], r)
  }

  /** t is what s looks like to everybody but r, had r never started. */
  predicate NeverStarted(s: State, t: State, r: nat) {
    && WellFormed(s) && WellFormed(t) && r < |s.runs| && |t.runs| == |s.runs|
    && t.iso == s.iso && t.db == s.db && t.configs == s.configs && t.used <= s.used
    && t.lock == (if s.lock == Some(r) then None else s.lock)
    && t.runs[r] == Ready
    && forall q :: 0 <= q < |s.runs| && q != r ==> t.runs[q] == s.runs[q]
  }

  lemma OwnStepInvisible(s: State, t: State, r: nat, step: Step)
    requires NeverStarted(s, t, r) && LockInv(s) && Enabled(s, step)
    requires OfRun(step) && step.run == r && !step.Commit?
    ensures NeverStarted(Apply(s, step), t, r)
  {
  }

  lemma RunStepEnabled(s: State, t: State, r: nat, step: Step)
    requires NeverStarted(s, t, r) && LockInv(s) && Enabled(s, step) && OfRun(step) && step.run != r
    ensures Enabled(t, step)
  {
    assert t.runs[step.run] == s.runs[step.run];
  }

  lemma RunStepMirrored(s: State, t: State, r: nat, step: Step)
    requires NeverStarted(s, t, r) && LockInv(s) && Enabled(s, step) && OfRun(step) && step.run != r
    requires Enabled(t, step)
    ensures NeverStarted(Apply(s, step), Apply(t, step), r)
  {
    assert t.runs[step.run] == s.runs[step.run];
  }

  lemma WriterStepMirrored(s: State, t: State, r: nat, step: Step)
    requires NeverStarted(s, t, r) && Enabled(s, step) && !OfRun(step)
    ensures Enabled(t, step) && NeverStarted(Apply(s, step), Apply(t, step), r)
  {
    forall q | 0 <= q < |t.runs| && HasPending(t.runs[q]) ensures t.runs[q] == s.runs[q] && HasPending(s.runs[q]) {
      assert q != r;
    }
  }

  lemma OtherStepMirrored(s: State, t: State, r: nat, step: Step)
    requires NeverStarted(s, t, r) && LockInv(s) && Enabled(s, step)
    requires !(OfRun(step) && step.run == r)
    ensures Enabled(t, step) && NeverStarted(Apply(s, step), Apply(t, step), r)
  {
    if OfRun(step) {
      RunStepEnabled(s, t, r, step);
      RunStepMirrored(s, t, r, step);
    } else {
      WriterStepMirrored(s, t, r, step);
    }
  }

  lemma {:induction false} DoneStaysDone(s: State, steps: seq<Step>, r: nat)
    requires WellFormed(s) && Possible(s, steps) && r < |s.runs| && s.runs[r].Done?
    ensures Exec(s, steps).runs[r] == s.runs[r]
    decreases |steps|
  {
    if steps != [] {
      DoneStaysDone(Apply(s, steps[0]), steps[1..], r);
    }
  }

  /**
   Deleting every step of a run that did not succeed from an execution leaves a possible execution
   that ends with the same committed tables, and the same phase for every other run.
   */
  lemma {:induction false} FailedRunLeavesNoTrace(s: State, t: State, r: nat, steps: seq<Step>)
    requires NeverStarted(s, t, r) && LockInv(s) && Possible(s, steps)
    requires !IsCreated(Exec(s, steps).runs[r])
    ensures Possible(t, Without(steps, r))
    ensures Exec(t, Without(steps, r)).db == Exec(s, steps).db
    ensures forall q :: 0 <= q < |s.runs| && q != r ==> Exec(t, Without(steps, r)).runs[q] == Exec(s, steps).runs[q]
    decreases |steps|
  {
    if steps != [] {
      var step, rest := steps[0], steps[1..];
      LockInvKept(s, step);
      if OfRun(step) && step.run == r {
        if step.Commit? {
          DoneStaysDone(Apply(s, step), rest, r);
          assert false;
        } else {
          OwnStepInvisible(s, t, r, step);
          FailedRunLeavesNoTrace(Apply(s, step), t, r, rest);
        }
      } else {
        OtherStepMirrored(s, t, r, step);
        FailedRunLeavesNoTrace(Apply(s, step), Apply(t, step), r, rest);
        var more := Without(rest, r);
        assert Without(steps, r) == [step] + more && ([step] + more)[1..] == more;
      }
    }
  }

  // ------------------------------------------------------------------------------------------
  // Nobody waits for ever.

  lemma FreshNumber(used: set<nat>)
    ensures exists n: nat :: n !in used
  {
    if used == {} {
      assert 0 !in used;
    } else {
      var m := Greatest(used);
      assert m + 1 !in used;
    }
  }

  /** A run inside its transaction can always take its next step. */
  lemma HolderCanMove(s: State, r: nat)
    requires WellFormed(s) && r < |s.runs| && HoldsLock(s.runs[r])
    ensures exists step :: OfRun(step) && !step.Crash? && Enabled(s, step)
  {
    match s.runs[r]
    case Holding(_) => assert Enabled(s, CountAdmins(r));
    case CountedAdmins(_, _) => assert Enabled(s, CountAudits(r));
    case Passed(_) =>
      var realms := Visible(s, r).realms;
      if i :| i in realms && IsActiveAdminRealm(realms[i]) {
        assert Enabled(s, FindRealm(r, Some(i)));
      } else {
        assert Enabled(s, FindRealm(r, None));
      }
    case RealmKnown(_) =>
      FreshNumber(s.used);
      var id: nat :| id !in s.used;
      assert Enabled(s, FlushAdmin(r, id));
    case Flushed(_, _) => assert Enabled(s, FlushAudit(r));
    case AuditWritten(_, _) => assert Enabled(s, Commit(r));
    case RollingBack(_) => assert Enabled(s, Rollback(r));
  }

  /** While some run is unfinished, some run can move without crashing. */
  lemma SomeoneCanMove(s: State, r: nat)
    requires LockInv(s) && r < |s.runs| && !s.runs[r].Done?
    ensures exists step :: OfRun(step) && !step.Crash? && Enabled(s, step)
  {
    match s.runs[r]
    case Ready => assert Enabled(s, CheckSecrets(r));
    case Waiting(_) =>
      if s.lock.None? {
        assert Enabled(s, Acquire(r));
      } else {
        HolderCanMove(s, s.lock.value);
      }
    case _ => HolderCanMove(s, r);
  }

  function Rank(p: Phase): nat {
    match p
    case Ready => 9
    case Waiting(_) => 8
    case Holding(_) => 7
    case CountedAdmins(_, _) => 6
    case Passed(_) => 5
    case RealmKnown(_) => 4
    case Flushed(_, _) => 3
    case AuditWritten(_, _) => 2
    case RollingBack(_) => 1
    case Done(_) => 0
  }

  /** Steps all runs together can still take. */
  function Budget(runs: seq<Phase>): nat {
    if runs == [] then 0 else Rank(runs[0]) + Budget(runs[1..])
  }

  lemma {:induction false} BudgetUpdate(runs: seq<Phase>, r: nat, p: Phase)
    requires r < |runs|
    ensures Budget(runs[r := p]) == Budget(runs) - Rank(runs[r]) + Rank(p)
    decreases |runs|
  {
    if r == 0 {
      assert runs[0 := p][1..] == runs[1..];
    } else {
      assert runs[r := p][1..] == runs[1..][r - 1 := p];
      BudgetUpdate(runs[1..], r - 1, p);
    }
  }

  function RunSteps(steps: seq<Step>): nat {
    if steps == [] then 0 else (if OfRun(steps[0]) then 1 else 0) + RunSteps(steps[1..])
  }

  /** A step of a run changes the phase of that run only, and lowers its rank. */
  lemma StepLowersRank(s: State, step: Step)
    requires WellFormed(s) && Enabled(s, step)
    ensures !OfRun(step) ==> Apply(s, step).runs == s.runs
    ensures OfRun(step) ==>
              && Apply(s, step).runs == s.runs[step.run := Apply(s, step).runs[step.run]]
              && Rank(Apply(s, step).runs[step.run]) < Rank(s.runs[step.run])
  {
  }

  lemma StepSpendsBudget(s: State, step: Step)
    requires WellFormed(s) && Enabled(s, step)
    ensures Budget(Apply(s, step).runs) + (if OfRun(step) then 1 else 0) <= Budget(s.runs)
  {
    StepLowersRank(s, step);
    if OfRun(step) {
      BudgetUpdate(s.runs, step.run, Apply(s, step).runs[step.run]);
    }
  }

  lemma {:induction false} BudgetBound(runs: seq<Phase>)
    ensures Budget(runs) <= 9 * |runs|
  {
    if runs != [] { BudgetBound(runs[1..]); }
  }

  /** n runs take at most 9n steps between them, however they and the other writers interleave. */
  lemma {:induction false} RunsFinish(s: State, steps: seq<Step>)
    requires WellFormed(s) && Possible(s, steps)
    ensures RunSteps(steps) + Budget(Exec(s, steps).runs) <= Budget(s.runs) <= 9 * |s.runs|
    decreases |steps|
  {
    BudgetBound(s.runs);
    if steps != [] {
      StepSpendsBudget(s, steps[0]);
      RunsFinish(Apply(s, steps[0]), steps[1..]);
    }
  }

  // ------------------------------------------------------------------------------------------
  // Who is an admin right after the bootstrap.

  /** The admins other writers have left behind: inserted and not deleted again. */
  function Track(ids: set<nat>, steps: seq<Step>): set<nat>
    decreases |steps|
  {
    if steps == [] then ids else Track(TrackStep(ids, steps[0]), steps[1..])
  }

  function TrackStep(ids: set<nat>, step: Step): set<nat> {
    match step
    case InsertAdmin(id, _) => ids + {id}
    case DeleteAdmin(id) => ids - {id}
    case _ => ids
  }

  lemma StepTracked(s: State, step: Step)
    requires WellFormed(s) && Enabled(s, step) && !step.Commit?
    ensures Apply(s, step).db.admins.Keys == TrackStep(s.db.admins.Keys, step)
  {
  }

  /** A run that holds the lock goes on holding it or is done, and nobody else commits meanwhile. */
  lemma HolderNext(s: State, step: Step, r: nat)
    requires LockInv(s) && r < |s.runs| && HoldsLock(s.runs[r]) && Enabled(s, step)
    ensures HoldsLock(Apply(s, step).runs[r]) || Apply(s, step).runs[r].Done?
    ensures step.Commit? ==> Apply(s, step).runs[r].Done?
  {
    assert step.Commit? ==> HoldsLock(s.runs[step.run]);
    if OfRun(step) && step.run != r {
      assert Apply(s, step).runs[r] == s.runs[r];
    }
  }

  /** While one run holds the lock, and up to its commit, nobody else commits. */
  lemma OnlyHolderCommits(s: State, step: Step, rest: seq<Step>, r: nat)
    requires LockInv(s) && r < |s.runs| && HoldsLock(s.runs[r])
    requires Enabled(s, step) && Possible(Apply(s, step), rest) && rest != [] && rest[|rest| - 1] == Commit(r)
    ensures !step.Commit? && HoldsLock(Apply(s, step).runs[r])
  {
    HolderNext(s, step, r);
    if Apply(s, step).runs[r].Done? {
      DoneCannotCommit(Apply(s, step), rest, r);
    }
  }

  lemma {:induction false} DoneCannotCommit(s: State, steps: seq<Step>, r: nat)
    requires WellFormed(s) && r < |s.runs| && s.runs[r].Done? && Possible(s, steps) && steps != []
    ensures steps[|steps| - 1] != Commit(r)
    decreases |steps|
  {
    if |steps| > 1 {
      DoneUntouched(s, steps[0], r);
      DoneCannotCommit(Apply(s, steps[0]), steps[1..], r);
    }
  }

  lemma CommitAdds(s: State, r: nat)
    requires LockInv(s) && TableInv(s) && r < |s.runs| && Enabled(s, Commit(r))
    ensures var e := Apply(s, Commit(r));
            && IsCreated(e.runs[r]) && e.runs[r].outcome.admin !in s.db.admins
            && e.db.admins.Keys == s.db.admins.Keys + {e.runs[r].outcome.admin}
  {
    assert s.runs[r].AuditWritten? && HasPending(s.runs[r]);
    assert PendingFits(s, r);
  }

  /** From any moment at which r holds the lock, its commit leaves its own admin and what other writers leave. */
  lemma {:induction false} AdminsAfterCommit(s: State, steps: seq<Step>, r: nat)
    requires LockInv(s) && TableInv(s) && Possible(s, steps) && steps != [] && steps[|steps| - 1] == Commit(r)
    requires r < |s.runs| && HoldsLock(s.runs[r])
    ensures var e := Exec(s, steps);
            && r < |e.runs| && IsCreated(e.runs[r])
            && e.runs[r].outcome.admin !in Track(s.db.admins.Keys, steps)
            && e.db.admins.Keys == Track(s.db.admins.Keys, steps) + {e.runs[r].outcome.admin}
    decreases |steps|
  {
    var s' := Apply(s, steps[0]);
    if |steps| == 1 {
      CommitAdds(s, r);
      assert steps == [Commit(r)] && steps[0] == Commit(r) && steps[1..] == [];
      assert Exec(s, steps) == Exec(s', []) == s';
      var ids := s.db.admins.Keys;
      assert Track(ids, steps) == Track(TrackStep(ids, Commit(r)), []) == ids;
    } else {
      OnlyHolderCommits(s, steps[0], steps[1..], r);
      StepTracked(s, steps[0]);
      LockInvKept(s, steps[0]);
      TableInvKept(s, steps[0]);
      AdminsAfterCommit(s', steps[1..], r);
    }
  }

  /**
   Take any moment after run r got the lock at which there are no admins, such as the one its count sees, and any
   continuation up to its commit. The bootstrapped admin is then the only one if and only if every admin other
   writers inserted since has been deleted again.
   */
  lemma AloneIff(s: State, steps: seq<Step>, r: nat)
    requires LockInv(s) && TableInv(s) && Possible(s, steps) && steps != [] && steps[|steps| - 1] == Commit(r)
    requires r < |s.runs| && HoldsLock(s.runs[r]) && s.db.admins == map[]
    ensures var e := Exec(s, steps);
            IsCreated(e.runs[r]) && (e.db.admins.Keys == {e.runs[r].outcome.admin} <==> Track({}, steps) == {})
  {
    AdminsAfterCommit(s, steps, r);
    var e := Exec(s, steps);
    assert s.db.admins.Keys == {};
    OnlyOne(e.db.admins.Keys, Track({}, steps), e.runs[r].outcome.admin);
  }

  lemma OnlyOne(all: set<nat>, others: set<nat>, id: nat)
    requires all == others + {id} && id !in others
    ensures all == {id} <==> others == {}
  {
    if others != {} {
      var x :| x in others;
      assert x in all && x != id;
    }
  }

  // ------------------------------------------------------------------------------------------
  // What deleting audit rows is worth.

  function SuccessCount(runs: seq<Phase>): nat {
    if runs == [] then 0 else (if IsCreated(runs[0]) then 1 else 0) + SuccessCount(runs[1..])
  }

  function PurgeCount(steps: seq<Step>): nat {
    if steps == [] then 0 else (if steps[0].PurgeAudits? then 1 else 0) + PurgeCount(steps[1..])
  }

  lemma {:induction false} SuccessUpdate(runs: seq<Phase>, r: nat, p: Phase)
    requires r < |runs|
    ensures SuccessCount(runs[r := p]) + (if IsCreated(runs[r]) then 1 else 0)
         == SuccessCount(runs) + (if IsCreated(p) then 1 else 0)
    decreases |runs|
  {
    if r == 0 {
      assert runs[0 := p][1..] == runs[1..];
    } else {
      assert runs[r := p][1..] == runs[1..][r - 1 := p];
      SuccessUpdate(runs[1..], r - 1, p);
    }
  }

  /** One row is there or none. */
  function Row(s: State): nat {
    if s.db.audits == [] then 0 else 1
  }

  /** Nobody is past the gate while a row is there. */
  predicate GateShut(s: State) {
    LockInv(s) && s.iso.ReadCommitted? && forall r :: 0 <= r < |s.runs| && PastGate(s.runs[r]) ==> s.db.audits == []
  }

  /** A step that makes a run succeed writes a row where there was none; only a purge removes one. */
  lemma StepSpendsRow(s: State, step: Step)
    requires GateShut(s) && Enabled(s, step)
    ensures GateShut(Apply(s, step))
    ensures SuccessCount(Apply(s, step).runs) + Row(s)
         <= SuccessCount(s.runs) + Row(Apply(s, step)) + (if step.PurgeAudits? then 1 else 0)
  {
    var s' := Apply(s, step);
    LockInvKept(s, step);
    StepLowersRank(s, step);
    if step.Commit? {
      assert PastGate(s.runs[step.run]) && s.db.audits == [];
      assert forall q :: 0 <= q < |s.runs| && q != step.run ==> !PastGate(s'.runs[q]);
      SuccessUpdate(s.runs, step.run, s'.runs[step.run]);
    } else if !step.PurgeAudits? {
      OtherStepEffect(s, step);
      if OfRun(step) {
        SuccessUpdate(s.runs, step.run, s'.runs[step.run]);
      }
    }
  }

  lemma {:induction false} RowsSpent(s: State, steps: seq<Step>)
    requires GateShut(s) && Possible(s, steps)
    ensures SuccessCount(Exec(s, steps).runs) + Row(s)
         <= SuccessCount(s.runs) + Row(Exec(s, steps)) + PurgeCount(steps)
    decreases |steps|
  {
    if steps != [] {
      StepSpendsRow(s, steps[0]);
      RowsSpent(Apply(s, steps[0]), steps[1..]);
    }
  }

  lemma {:induction false} NobodyCreated(runs: seq<Phase>)
    requires forall r :: 0 <= r < |runs| ==> !IsCreated(runs[r])
    ensures SuccessCount(runs) == 0
    decreases |runs|
  {
    if runs != [] {
      assert !IsCreated(runs[0]);
      NobodyCreated(runs[1..]);
    }
  }

  /** With audit rows deleted k times at most k + 1 runs ever succeed, at most k if a row was there at the start. */
  lemma PurgesBoundSuccesses(s: State, steps: seq<Step>)
    requires Initial(s) && s.iso.ReadCommitted? && Possible(s, steps)
    ensures SuccessCount(Exec(s, steps).runs) <= PurgeCount(steps) + 1 - Row(s)
  {
    NobodyCreated(s.runs);
    RowsSpent(s, steps);
  }
}
