/** The apply-baseline command, one invocation of the `bao` program after the other, against the server. */
module OpenBaoBootstrap {
  import opened Prelude
  import opened BaoConvergence
  import opened OpenBaoPlan
  import opened OpenBaoOutcome

  // ------------------------------------------------------------------------------------------
  // Runs in stretches.

  lemma SplitAt<T>(s: seq<T>, i: nat)
    requires i <= |s|
    ensures s[..i] + s[i..] == s
  {
  }

  /** A run whose first stretch is refused a command ends there; otherwise the second stretch follows. */
  lemma {:induction false} TraceAppend(s: Server, a: seq<Action>, b: seq<Action>)
    ensures Completes(s, a) ==> Trace(s, a + b) == Trace(s, a) + Trace(Run(s, a), b)
    ensures !Completes(s, a) ==> Trace(s, a + b) == Trace(s, a)
    decreases |a|
  {
    if a == [] {
      assert a + b == b && [] + Trace(s, b) == Trace(s, b);
    } else {
      assert (a + b)[0] == a[0] && (a + b)[1..] == a[1..] + b;
      var cs := Commands(s, a[0]);
      IssueAll(s, cs);
      if AllAccepted(s, cs) {
        var s1 := PerformAll(s, cs);
        TraceAppend(s1, a[1..], b);
        PerformAppend(s, cs, Trace(s1, a[1..]));
        Regroup3(cs, Trace(s1, a[1..]), Trace(Run(s, a), b));
      } else {
        assert Trace(s, a) == Issue(s, cs) + [] == Issue(s, cs);
        assert Trace(s, a + b) == Issue(s, cs) + [] == Issue(s, cs);
      }
    }
  }

  /** Two stretches of a run, one after the other. */
  lemma RunAppend(s: Server, a: seq<Action>, b: seq<Action>)
    ensures Completes(s, a) ==>
              && Trace(s, a + b) == Trace(s, a) + Trace(Run(s, a), b) && Run(s, a + b) == Run(Run(s, a), b)
              && (Completes(s, a + b) <==> Completes(Run(s, a), b))
    ensures !Completes(s, a) ==> Trace(s, a + b) == Trace(s, a) && Run(s, a + b) == Run(s, a) && !Completes(s, a + b)
  {
    TraceAppend(s, a, b);
    PerformAppend(s, Trace(s, a), Trace(Run(s, a), b));
  }

  /** One action of one command. */
  lemma RunOne(s: Server, a: Action, c: Command)
    requires Commands(s, a) == [c]
    ensures Trace(s, [a]) == [c] && Run(s, [a]) == Perform(s, c) && (Completes(s, [a]) <==> Accepts(s, c))
  {
    assert [a][1..] == [] && Issue(s, [c]) == [c];
    TwoCommands(s, c, c);
  }

  /** One action of a listing, which changes nothing, and a second command. */
  lemma RunTwo(s: Server, a: Action, c: Command, d: Command)
    requires Commands(s, a) == [c, d] && Perform(s, c) == s
    ensures Accepts(s, c) ==>
              Trace(s, [a]) == [c, d] && Run(s, [a]) == Perform(s, d) && (Completes(s, [a]) <==> Accepts(s, d))
    ensures !Accepts(s, c) ==> Trace(s, [a]) == [c] && Run(s, [a]) == s && !Completes(s, [a])
  {
    assert [a][1..] == [] && [c, d][1..] == [d] && Issue(s, [d]) == [d];
    TwoCommands(s, c, d);
    TwoCommands(s, d, d);
    IssueAll(s, [c, d]);
  }

  // ------------------------------------------------------------------------------------------
  // The command itself.

  lemma OutcomeEverywhere(s: Server, args: Args)
    requires WellFormed(s) && args.platformNamespace != ""
    ensures Completes(s, Baseline(args)) ==>
              forall k :: At(Run(s, Baseline(args)), k) == Expected(args, At(s, k), k)
  {
    if Completes(s, Baseline(args)) {
      forall k ensures At(Run(s, Baseline(args)), k) == Expected(args, At(s, k), k) {
        BaselineOutcome(s, args, k);
      }
    }
  }

  class BaoSession {
    var server: Server
    var log: seq<Command>

    constructor (server: Server)
      ensures this.server == server && log == []
    {
      this.server, log := server, [];
    }

    /** From this server and log, a run over the plan led to the present ones, and was refused nothing if ok. */
    ghost predicate Did(server0: Server, log0: seq<Command>, plan: seq<Action>, ok: bool)
      reads this
    {
      server == Run(server0, plan) && log == log0 + Trace(server0, plan) && (ok <==> Completes(server0, plan))
    }

    /** One invocation of the program; a refused command raises. */
    method RunBao(c: Command) returns (ok: bool)
      modifies this
      ensures server == Perform(old(server), c) && log == old(log) + [c] && (ok <==> Accepts(old(server), c))
    {
      ok := Accepts(server, c);
      server := Perform(server, c);
      log := log + [c];
    }

    /** One stretch after another that was refused nothing. */
    lemma Then(server0: Server, log0: seq<Command>, a: seq<Action>, server1: Server, log1: seq<Command>,
               b: seq<Action>, ok: bool)
      requires server1 == Run(server0, a) && log1 == log0 + Trace(server0, a) && Completes(server0, a)
      requires Did(server1, log1, b, ok)
      ensures Did(server0, log0, a + b, ok)
    {
      RunAppend(server0, a, b);
      Regroup3(log0, Trace(server0, a), Trace(server1, b));
    }

    /** A stretch that was refused a command is all there is of the run. */
    lemma Stopped(server0: Server, log0: seq<Command>, a: seq<Action>, b: seq<Action>)
      requires Did(server0, log0, a, false)
      ensures Did(server0, log0, a + b, false)
    {
      RunAppend(server0, a, b);
    }

    method EnsureNamespace(ns: string) returns (ok: bool)
      modifies this
      ensures Did(old(server), old(log), [Action.EnsureNamespace(ns)], ok)
    {
      ghost var s, a := server, Action.EnsureNamespace(ns);
      if Namespace(ns) in s {
        RunOne(s, a, ListNamespaces);
      } else {
        RunTwo(s, a, ListNamespaces, CreateNamespace(ns));
      }
      ok := RunBao(ListNamespaces);
      if ok && Namespace(ns) !in server {
        ok := RunBao(CreateNamespace(ns));
      }
    }

    method EnsureAuthMount(ns: string, path: string, authType: string, description: string) returns (ok: bool)
      modifies this
      ensures Did(old(server), old(log), [EnsureAuth(ns, path, authType, description)], ok)
    {
      ghost var s, a := server, EnsureAuth(ns, path, authType, description);
      if AuthMount(ns, path) in s {
        RunOne(s, a, ListAuth(ns));
      } else {
        RunTwo(s, a, ListAuth(ns), EnableAuth(ns, path, authType, description));
      }
      ok := RunBao(ListAuth(ns));
      if ok && AuthMount(ns, path) !in server {
        ok := RunBao(EnableAuth(ns, path, authType, description));
      }
    }

    method EnsureSecretMount(ns: string, path: string, secretType: string, description: string, maxTtl: string,
                             version: Option<int>)
      returns (ok: bool)
      modifies this
      ensures Did(old(server), old(log), [EnsureSecret(ns, path, secretType, description, maxTtl, version)], ok)
    {
      ghost var s, a := server, EnsureSecret(ns, path, secretType, description, maxTtl, version);
      if SecretMount(ns, path) !in s {
        RunTwo(s, a, ListSecrets(ns), EnableSecret(ns, path, secretType, description, Ttl(maxTtl), version));
      } else if maxTtl != "" {
        RunTwo(s, a, ListSecrets(ns), TuneSecret(ns, path, maxTtl));
      } else {
        RunOne(s, a, ListSecrets(ns));
      }
      ok := RunBao(ListSecrets(ns));
      if ok {
        if SecretMount(ns, path) !in server {
          ok := RunBao(EnableSecret(ns, path, secretType, description, Ttl(maxTtl), version));
        } else if maxTtl != "" {
          ok := RunBao(TuneSecret(ns, path, maxTtl));
        }
      }
    }

    /** A single write. */
    method Put(c: Command, ghost a: Action) returns (ok: bool)
      requires Commands(server, a) == [c]
      modifies this
      ensures Did(old(server), old(log), [a], ok)
    {
      RunOne(server, a, c);
      ok := RunBao(c);
    }

    method ApplyPolicies(policies: seq<Named>) returns (ok: bool)
      modifies this
      ensures Did(old(server), old(log), PolicyPlan(policies), ok)
    {
      ghost var plan := PolicyPlan(policies);
      ok := true;
      for i := 0 to |policies|
        invariant ok && Did(old(server), old(log), plan[..i], true)
      {
        ghost var a := PutPolicy("", policies[i].name, policies[i].text);
        ghost var s1, l1 := server, log;
        ok := Put(WritePolicy("", policies[i].name, policies[i].text), a);
        Then(old(server), old(log), plan[..i], s1, l1, [a], ok);
        assert plan[..i + 1] == plan[..i] + [a];
        if !ok {
          Stopped(old(server), old(log), plan[..i + 1], plan[i + 1..]);
          SplitAt(plan, i + 1);
          return;
        }
      }
      assert plan[..|policies|] == plan;
    }

    method WriteRoles(ns: string, path: string, roles: seq<Named>) returns (ok: bool)
      modifies this
      ensures Did(old(server), old(log), RolePlan(ns, path, roles), ok)
    {
      ghost var plan := RolePlan(ns, path, roles);
      ok := true;
      for i := 0 to |roles|
        invariant ok && Did(old(server), old(log), plan[..i], true)
      {
        ghost var a := PutRole(ns, path, roles[i].name, roles[i].text);
        ghost var s1, l1 := server, log;
        ok := Put(WriteRole(ns, path, roles[i].name, roles[i].text), a);
        Then(old(server), old(log), plan[..i], s1, l1, [a], ok);
        assert plan[..i + 1] == plan[..i] + [a];
        if !ok {
          Stopped(old(server), old(log), plan[..i + 1], plan[i + 1..]);
          SplitAt(plan, i + 1);
          return;
        }
      }
      assert plan[..|roles|] == plan;
    }

    method ApplyOidcConfig(spec: OidcSpec) returns (ok: bool)
      modifies this
      ensures Did(old(server), old(log), OidcPlan(spec), ok)
    {
      ghost var a, roles := PutConfig("", "oidc-operators", spec.config), RolePlan("", "oidc-operators", spec.roles);
      ok := Put(WriteConfig("", "oidc-operators", spec.config), a);
      if !ok {
        Stopped(old(server), old(log), [a], roles);
        return;
      }
      ghost var s1, l1 := server, log;
      ok := WriteRoles("", "oidc-operators", spec.roles);
      Then(old(server), old(log), [a], s1, l1, roles, ok);
    }

    method ApplyJwtMount(ns: string, m: JwtMount) returns (ok: bool)
      modifies this
      ensures Did(old(server), old(log), JwtMountPlan(ns, m), ok)
    {
      var path := MountPath(m);
      ghost var mount := [EnsureAuth(ns, path, "jwt", "Kubernetes JWT auth for " + m.clusterId)];
      ghost var write := if m.config.Some? then [PutConfig(ns, path, m.config.value)] else [];
      ghost var roles := RolePlan(ns, path, m.roles);
      Regroup3(mount, write, roles);
      ok := EnsureAuthMount(ns, path, "jwt", "Kubernetes JWT auth for " + m.clusterId);
      if !ok {
        Stopped(old(server), old(log), mount, write + roles);
        return;
      }
      ghost var s1, l1 := server, log;
      if m.config.Some? {
        ok := Put(WriteConfig(ns, path, m.config.value), PutConfig(ns, path, m.config.value));
      }
      assert Did(s1, l1, write, ok);
      Then(old(server), old(log), mount, s1, l1, write, ok);
      if !ok {
        Stopped(old(server), old(log), mount + write, roles);
        return;
      }
      ghost var s2, l2 := server, log;
      ok := WriteRoles(ns, path, m.roles);
      Then(old(server), old(log), mount + write, s2, l2, roles, ok);
    }

    method ApplyJwtMounts(ns: string, mounts: seq<JwtMount>) returns (ok: bool)
      modifies this
      ensures Did(old(server), old(log), JwtPlan(ns, mounts), ok)
    {
      ok := true;
      for i := 0 to |mounts|
        invariant ok && Did(old(server), old(log), JwtPlan(ns, mounts[..i]), true)
      {
        ghost var s1, l1 := server, log;
        ok := ApplyJwtMount(ns, mounts[i]);
        Then(old(server), old(log), JwtPlan(ns, mounts[..i]), s1, l1, JwtMountPlan(ns, mounts[i]), ok);
        JwtPlanSnoc(ns, mounts[..i], mounts[i]);
        assert mounts[..i + 1] == mounts[..i] + [mounts[i]];
        assert Did(old(server), old(log), JwtPlan(ns, mounts[..i + 1]), ok);
        if !ok {
          Stopped(old(server), old(log), JwtPlan(ns, mounts[..i + 1]), JwtPlan(ns, mounts[i + 1..]));
          JwtPlanAppend(ns, mounts[..i + 1], mounts[i + 1..]);
          SplitAt(mounts, i + 1);
          return;
        }
      }
      assert mounts[..|mounts|] == mounts;
    }

    /** The two auth mounts inside the platform namespace. */
    method ApplyAuthMounts(ns: string) returns (ok: bool)
      modifies this
      ensures Did(old(server), old(log), AuthMountsPlan(ns), ok)
    {
      ghost var plan := AuthMountsPlan(ns);
      assert plan == [plan[0]] + [plan[1]];
      ok := EnsureAuthMount(ns, "cert-fleet", "cert", "Fleet certificate authentication");
      if !ok {
        Stopped(old(server), old(log), [plan[0]], [plan[1]]);
        return;
      }
      ghost var s1, l1 := server, log;
      ok := EnsureAuthMount(ns, "approle-bootstrap", "approle", "Bootstrap-only AppRole path");
      Then(old(server), old(log), [plan[0]], s1, l1, [plan[1]], ok);
    }

    /** Two secret mounts. */
    method ApplySecretPair(ns: string, ghost a: Action, ghost b: Action, path: string, path': string, kind: string,
                           description: string, description': string, ttl: string, ttl': string, version: Option<int>)
      returns (ok: bool)
      requires a == EnsureSecret(ns, path, kind, description, ttl, version)
      requires b == EnsureSecret(ns, path', kind, description', ttl', version)
      modifies this
      ensures Did(old(server), old(log), [a, b], ok)
    {
      assert [a] + [b] == [a, b];
      ok := EnsureSecretMount(ns, path, kind, description, ttl, version);
      if !ok {
        Stopped(old(server), old(log), [a], [b]);
        return;
      }
      ghost var s1, l1 := server, log;
      ok := EnsureSecretMount(ns, path', kind, description', ttl', version);
      Then(old(server), old(log), [a], s1, l1, [b], ok);
    }

    /** The six mounts inside the platform namespace. */
    method ApplyMounts(args: Args) returns (ok: bool)
      modifies this
      ensures Did(old(server), old(log), MountsPlan(args), ok)
    {
      var ns := args.platformNamespace;
      ghost var auth, kv, pki := AuthMountsPlan(ns), SecretMountsPlan(args)[..2], SecretMountsPlan(args)[2..];
      assert kv == [kv[0], kv[1]] && pki == [pki[0], pki[1]] && kv + pki == SecretMountsPlan(args);
      Regroup3(auth, kv, pki);
      ok := ApplyAuthMounts(ns);
      if !ok {
        Stopped(old(server), old(log), auth, kv + pki);
        return;
      }
      ghost var s1, l1 := server, log;
      ok := ApplySecretPair(ns, kv[0], kv[1], "kv-apps", "kv-shared", "kv", "Application secrets",
                            "Shared platform secrets", "", "", Some(2));
      Then(old(server), old(log), auth, s1, l1, kv, ok);
      if !ok {
        Stopped(old(server), old(log), auth + kv, pki);
        return;
      }
      ghost var s2, l2 := server, log;
      ok := ApplySecretPair(ns, pki[0], pki[1], "pki-k8s", "pki-infra", "pki", "Kubernetes internal TLS PKI",
                            "Infrastructure TLS PKI", args.pkiK8sMaxTtl, args.pkiInfraMaxTtl, None);
      Then(old(server), old(log), auth + kv, s2, l2, pki, ok);
    }

    /** The namespace and the operators' login mount. */
    method ApplyHead(ns: string) returns (ok: bool)
      modifies this
      ensures Did(old(server), old(log), HeadPlan(ns), ok)
    {
      ghost var plan := HeadPlan(ns);
      assert plan == [plan[0]] + [plan[1]];
      ok := EnsureNamespace(ns);
      if !ok {
        Stopped(old(server), old(log), [plan[0]], [plan[1]]);
        return;
      }
      ghost var s1, l1 := server, log;
      ok := EnsureAuthMount("", "oidc-operators", "oidc", "Human operator login path");
      Then(old(server), old(log), [plan[0]], s1, l1, [plan[1]], ok);
    }

    /** The two optional specifications. */
    method ApplySpecs(args: Args) returns (ok: bool)
      modifies this
      ensures Did(old(server), old(log), SpecsPlan(args), ok)
    {
      ghost var jwt := JwtPlan(args.platformNamespace, args.jwtMounts);
      ghost var oidc := if args.oidc.Some? then OidcPlan(args.oidc.value) else [];
      ok := true;
      if args.oidc.Some? {
        ok := ApplyOidcConfig(args.oidc.value);
      }
      assert Did(old(server), old(log), oidc, ok);
      if !ok {
        Stopped(old(server), old(log), oidc, jwt);
        return;
      }
      ghost var s1, l1 := server, log;
      ok := ApplyJwtMounts(args.platformNamespace, args.jwtMounts);
      Then(old(server), old(log), oidc, s1, l1, jwt, ok);
    }

    /**
     The whole command, without the token, smoke and revoke flags. It issues exactly the baseline's commands, up to
     the first refused one; none is refused if and only if every auth mount found at the start that is to
     receive a configuration or a role has a type that takes it. If none is, every key of the server holds what the
     arguments say.
     */
    method ApplyBaseline(args: Args) returns (ok: bool)
      requires WellFormed(server) && args.platformNamespace != ""
      modifies this
      ensures Did(old(server), old(log), Baseline(args), ok) && WellFormed(server)
      ensures ok <==>
              && (args.oidc.Some? ==> MountFits(old(server), "", "oidc-operators"))
              && forall i :: 0 <= i < |args.jwtMounts| ==>
                   MountTakes(old(server), args.platformNamespace, args.jwtMounts[i])
      ensures ok ==> forall k :: At(server, k) == Expected(args, At(old(server), k), k)
    {
      OutcomeEverywhere(server, args);
      MountsTakeIff(server, args);
      var ns := args.platformNamespace;
      ghost var head, policies, mounts, specs :=
        HeadPlan(ns), PolicyPlan(args.policies), MountsPlan(args), SpecsPlan(args);
      BaselineSound(args);
      BaselineTypesFit(args);
      RunReconciles(server, Baseline(args), {}, {});
      BaselineSpelled(args);
      ok := ApplyHead(ns);
      if !ok {
        Stopped(old(server), old(log), head, policies + (mounts + specs));
        return;
      }
      ghost var s1, l1 := server, log;
      ok := ApplyPolicies(args.policies);
      Then(old(server), old(log), head, s1, l1, policies, ok);
      if !ok {
        Stopped(old(server), old(log), head + policies, mounts + specs);
        return;
      }
      ghost var s2, l2 := server, log;
      ok := ApplyMounts(args);
      Then(old(server), old(log), head + policies, s2, l2, mounts, ok);
      if !ok {
        Stopped(old(server), old(log), head + policies + mounts, specs);
        return;
      }
      ghost var s3, l3 := server, log;
      ok := ApplySpecs(args);
      Then(old(server), old(log), head + policies + mounts, s3, l3, specs, ok);
    }
  }

  function SpecsPlan(args: Args): seq<Action> {
    (if args.oidc.Some? then OidcPlan(args.oidc.value) else []) + JwtPlan(args.platformNamespace, args.jwtMounts)
  }

  lemma BaselineSpelled(args: Args)
    ensures var head, policies, mounts, specs :=
              HeadPlan(args.platformNamespace), PolicyPlan(args.policies), MountsPlan(args), SpecsPlan(args);
            && Baseline(args) == head + policies + mounts + specs
            && Baseline(args) == head + policies + (mounts + specs)
            && Baseline(args) == head + (policies + (mounts + specs))
  {
    var oidc := if args.oidc.Some? then OidcPlan(args.oidc.value) else [];
    RegroupFive(HeadPlan(args.platformNamespace), PolicyPlan(args.policies), MountsPlan(args), oidc,
                JwtPlan(args.platformNamespace, args.jwtMounts));
  }

  lemma RegroupFive(a: seq<Action>, b: seq<Action>, c: seq<Action>, d: seq<Action>, e: seq<Action>)
    ensures a + b + c + d + e == a + b + c + (d + e)
    ensures a + b + c + d + e == a + b + (c + (d + e))
    ensures a + b + c + d + e == a + (b + (c + (d + e)))
  {
  }

  /**
   Crashes at any commands of any number of runs do not change where the baseline ends, a further run changes
   nothing, and what decides whether a command is refused is the types of the mounts found at the very start.
   */
  lemma BaselineConverges(s: Server, args: Args, deaths: seq<nat>, e: Server)
    requires WellFormed(s) && args.platformNamespace != "" && DiesAt(s, Baseline(args), deaths, e)
    ensures Run(e, Baseline(args)) == Run(s, Baseline(args))
    ensures Completes(e, Baseline(args)) <==> MountsTake(s, Baseline(args))
    ensures Run(Run(e, Baseline(args)), Baseline(args)) == Run(s, Baseline(args))
  {
    BaselineSound(args);
    BaselineTypesFit(args);
    ConvergesAfterCrashes(s, Baseline(args), deaths, e);
    SecondRunChangesNothing(s, Baseline(args));
  }

  /** A login mount of any other type makes every run end at the operators' configuration. */
  lemma WrongTypeRefused(args: Args, kind: string)
    requires args.platformNamespace != "" && args.oidc.Some? && kind !in TAKING
    ensures var s := map[AuthMount("", "oidc-operators") := Mounted(kind, "", None, None)];
            WellFormed(s) && !Completes(s, Baseline(args))
  {
    var s := map[AuthMount("", "oidc-operators") := Mounted(kind, "", None, None)];
    var before := HeadPlan(args.platformNamespace) + PolicyPlan(args.policies) + MountsPlan(args);
    var write := PutConfig("", "oidc-operators", args.oidc.value.config);
    BaselineSpelled(args);
    assert SpecsPlan(args)[0] == write;
    assert Baseline(args)[|before|] == write && !Takes(s, write);
    BaselineSound(args);
    BaselineTypesFit(args);
    RunReconciles(s, Baseline(args), {}, {});
  }
}
