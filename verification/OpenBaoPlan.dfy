/** What the apply-baseline command does, action by action: its fixed mounts, its policies, the two specifications. */
module OpenBaoPlan {
  import opened Prelude
  import opened BaoConvergence

  /** A role or a policy: a name and the text written for it. */
  datatype Named = Named(name: string, text: string)

  datatype OidcSpec = OidcSpec(config: string, roles: seq<Named>)

  /** One JWT mount; an empty configuration object is not written. */
  datatype JwtMount = JwtMount(clusterId: string, config: Option<string>, roles: seq<Named>)

  datatype Args = Args(
    platformNamespace: string, policies: seq<Named>, pkiK8sMaxTtl: string, pkiInfraMaxTtl: string,
    oidc: Option<OidcSpec>, jwtMounts: seq<JwtMount>)

  function PolicyPlan(policies: seq<Named>): seq<Action> {
    seq(|policies|, i requires 0 <= i < |policies| => PutPolicy("", policies[i].name, policies[i].text))
  }

  function RolePlan(ns: string, path: string, roles: seq<Named>): seq<Action> {
    seq(|roles|, i requires 0 <= i < |roles| => PutRole(ns, path, roles[i].name, roles[i].text))
  }

  function OidcPlan(spec: OidcSpec): seq<Action> {
    [PutConfig("", "oidc-operators", spec.config)] + RolePlan("", "oidc-operators", spec.roles)
  }

  function MountPath(m: JwtMount): string {
    "jwt-k8s-" + m.clusterId
  }

  function JwtMountPlan(ns: string, m: JwtMount): seq<Action> {
    [EnsureAuth(ns, MountPath(m), "jwt", "Kubernetes JWT auth for " + m.clusterId)]
    + (if m.config.Some? then [PutConfig(ns, MountPath(m), m.config.value)] else [])
    + RolePlan(ns, MountPath(m), m.roles)
  }

  function JwtPlan(ns: string, mounts: seq<JwtMount>): seq<Action> {
    if mounts == [] then [] else JwtMountPlan(ns, mounts[0]) + JwtPlan(ns, mounts[1..])
  }

  function HeadPlan(ns: string): seq<Action> {
    [EnsureNamespace(ns), EnsureAuth("", "oidc-operators", "oidc", "Human operator login path")]
  }

  function AuthMountsPlan(ns: string): seq<Action> {
    [EnsureAuth(ns, "cert-fleet", "cert", "Fleet certificate authentication"),
     EnsureAuth(ns, "approle-bootstrap", "approle", "Bootstrap-only AppRole path")]
  }

  function SecretMountsPlan(args: Args): seq<Action> {
    var ns := args.platformNamespace;
    [EnsureSecret(ns, "kv-apps", "kv", "Application secrets", "", Some(2)),
     EnsureSecret(ns, "kv-shared", "kv", "Shared platform secrets", "", Some(2)),
     EnsureSecret(ns, "pki-k8s", "pki", "Kubernetes internal TLS PKI", args.pkiK8sMaxTtl, None),
     EnsureSecret(ns, "pki-infra", "pki", "Infrastructure TLS PKI", args.pkiInfraMaxTtl, None)]
  }

  function MountsPlan(args: Args): seq<Action> {
    AuthMountsPlan(args.platformNamespace) + SecretMountsPlan(args)
  }

  function Baseline(args: Args): seq<Action> {
    HeadPlan(args.platformNamespace) + PolicyPlan(args.policies) + MountsPlan(args)
    + (if args.oidc.Some? then OidcPlan(args.oidc.value) else [])
    + JwtPlan(args.platformNamespace, args.jwtMounts)
  }

  // ------------------------------------------------------------------------------------------
  // The plan is sound.

  /** The auth mounts a plan makes sure of. */
  function MountsOf(plan: seq<Action>): set<(string, string)> {
    set i | 0 <= i < |plan| && plan[i].EnsureAuth? :: (plan[i].ns, plan[i].path)
  }

  /** Every action is applicable once the namespace and these mounts are there. */
  predicate Relies(plan: seq<Action>, ns: string, mounts: set<(string, string)>) {
    forall i :: 0 <= i < |plan| ==>
      (match plan[i]
       case EnsureNamespace(n) => n != ""
       case EnsureAuth(m, _, _, _) => m == "" || m == ns
       case EnsureSecret(m, _, _, _, _, _) => m == "" || m == ns
       case PutPolicy(m, _, _) => m == "" || m == ns
       case PutConfig(m, p, _) => (m, p) in mounts
       case PutRole(m, p, _, _) => (m, p) in mounts)
  }

  lemma {:induction false} ReliesIsSound(plan: seq<Action>, ns: string, namespaces: set<string>,
                                         mounts: set<(string, string)>)
    requires ns in namespaces && Relies(plan, ns, mounts)
    ensures Sound(plan, namespaces, mounts)
    decreases |plan|
  {
    if plan != [] {
      var a := plan[0];
      var namespaces' := if a.EnsureNamespace? then namespaces + {a.name} else namespaces;
      var mounts' := if a.EnsureAuth? then mounts + {(a.ns, a.path)} else mounts;
      assert Relies(plan[1..], ns, mounts');
      ReliesIsSound(plan[1..], ns, namespaces', mounts');
    }
  }

  lemma {:induction false} SoundAppend(a: seq<Action>, b: seq<Action>, ns: string, namespaces: set<string>,
                                       mounts: set<(string, string)>)
    requires ns in namespaces && Relies(a, ns, mounts)
    requires forall namespaces', mounts' :: ns in namespaces' && mounts + MountsOf(a) <= mounts' ==>
              Sound(b, namespaces', mounts')
    ensures Sound(a + b, namespaces, mounts)
    decreases |a|
  {
    if a == [] {
      assert a + b == b;
      assert mounts + MountsOf(a) <= mounts;
    } else {
      assert (a + b)[0] == a[0] && (a + b)[1..] == a[1..] + b;
      var x := a[0];
      var namespaces' := if x.EnsureNamespace? then namespaces + {x.name} else namespaces;
      var mounts' := if x.EnsureAuth? then mounts + {(x.ns, x.path)} else mounts;
      assert Relies(a[1..], ns, mounts');
      MountsOfTail(a);
      assert mounts + MountsOf(a) <= mounts' + MountsOf(a[1..]);
      SoundAppend(a[1..], b, ns, namespaces', mounts');
    }
  }

  lemma MountsOfTail(a: seq<Action>)
    requires a != []
    ensures MountsOf(a) == MountsOf(a[1..]) + (if a[0].EnsureAuth? then {(a[0].ns, a[0].path)} else {})
  {
    forall m | m in MountsOf(a[1..]) ensures m in MountsOf(a) {
      var i :| 0 <= i < |a[1..]| && a[1..][i].EnsureAuth? && (a[1..][i].ns, a[1..][i].path) == m;
      assert a[i + 1].EnsureAuth? && (a[i + 1].ns, a[i + 1].path) == m;
    }
    forall m | m in MountsOf(a)
      ensures m in MountsOf(a[1..]) + (if a[0].EnsureAuth? then {(a[0].ns, a[0].path)} else {})
    {
      var i :| 0 <= i < |a| && a[i].EnsureAuth? && (a[i].ns, a[i].path) == m;
      if i > 0 {
        assert a[1..][i - 1] == a[i];
      }
    }
  }

  lemma {:induction false} JwtSound(ns: string, ms: seq<JwtMount>, namespaces: set<string>,
                                    mounts: set<(string, string)>)
    requires ns in namespaces
    ensures Sound(JwtPlan(ns, ms), namespaces, mounts)
    decreases |ms|
  {
    if ms != [] {
      var m := ms[0];
      var first := [EnsureAuth(ns, MountPath(m), "jwt", "Kubernetes JWT auth for " + m.clusterId)];
      var rest := (if m.config.Some? then [PutConfig(ns, MountPath(m), m.config.value)] else [])
          + RolePlan(ns, MountPath(m), m.roles);
      var mounts' := mounts + {(ns, MountPath(m))};
      var more := JwtPlan(ns, ms[1..]);
      forall namespaces'', mounts'' | ns in namespaces'' && mounts' + MountsOf(rest) <= mounts''
        ensures Sound(more, namespaces'', mounts'')
      {
        JwtSound(ns, ms[1..], namespaces'', mounts'');
      }
      SoundAppend(rest, more, ns, namespaces, mounts');
      var whole := JwtPlan(ns, ms);
      assert whole == first + (rest + more);
      assert whole[0] == first[0] && whole[1..] == rest + more;
    }
  }

  /** Every command of the baseline finds the namespace and the mounts it needs. */
  lemma BaselineSound(args: Args)
    requires args.platformNamespace != ""
    ensures Sound(Baseline(args), {}, {})
  {
    var ns := args.platformNamespace;
    var oidc := if args.oidc.Some? then OidcPlan(args.oidc.value) else [];
    var middle := PolicyPlan(args.policies) + MountsPlan(args) + oidc;
    var jwt := JwtPlan(ns, args.jwtMounts);
    var mounts := {("", "oidc-operators")};
    ReliesAppend(PolicyPlan(args.policies), MountsPlan(args), ns, mounts);
    ReliesAppend(PolicyPlan(args.policies) + MountsPlan(args), oidc, ns, mounts);
    forall namespaces', mounts' | ns in namespaces' && mounts + MountsOf(middle) <= mounts'
      ensures Sound(jwt, namespaces', mounts')
    {
      JwtSound(ns, args.jwtMounts, namespaces', mounts');
    }
    SoundAppend(middle, jwt, ns, {ns}, mounts);
    HeadSound(ns, middle + jwt);
    Regroup(HeadPlan(ns), PolicyPlan(args.policies), MountsPlan(args), oidc, jwt);
  }

  lemma Regroup(a: seq<Action>, b: seq<Action>, c: seq<Action>, d: seq<Action>, e: seq<Action>)
    ensures a + b + c + d + e == a + ((b + c + d) + e)
  {
  }

  lemma ReliesAppend(a: seq<Action>, b: seq<Action>, ns: string, mounts: set<(string, string)>)
    requires Relies(a, ns, mounts) && Relies(b, ns, mounts)
    ensures Relies(a + b, ns, mounts)
  {
  }

  lemma HeadSound(ns: string, rest: seq<Action>)
    requires ns != "" && Sound(rest, {ns}, {("", "oidc-operators")})
    ensures Sound(HeadPlan(ns) + rest, {}, {})
  {
    var plan := HeadPlan(ns) + rest;
    assert plan[1..][1..] == rest;
    assert {} + {ns} == {ns} && {} + {("", "oidc-operators")} == {("", "oidc-operators")};
    assert Sound(plan[1..], {ns}, {});
  }

  /** What the proofs use of an action of the baseline: which auth mounts it creates, which it writes to. */
  predicate Tame(a: Action, ns: string) {
    && (a.EnsureAuth? ==> a.kind in TAKING || (a.ns == ns && a.path in {"cert-fleet", "approle-bootstrap"}))
    && (a.PutConfig? || a.PutRole? ==>
        (a.ns == "" && a.path == "oidc-operators") || (a.ns == ns && "jwt-k8s-" <= a.path))
  }

  predicate AllTame(plan: seq<Action>, ns: string) {
    forall i :: 0 <= i < |plan| ==> Tame(plan[i], ns)
  }

  lemma TameAppend(a: seq<Action>, b: seq<Action>, ns: string)
    requires AllTame(a, ns) && AllTame(b, ns)
    ensures AllTame(a + b, ns)
  {
  }

  lemma {:induction false} JwtTame(ns: string, ms: seq<JwtMount>)
    ensures AllTame(JwtPlan(ns, ms), ns)
    decreases |ms|
  {
    if ms != [] {
      JwtTame(ns, ms[1..]);
      assert "jwt-k8s-" <= MountPath(ms[0]);
      assert AllTame(JwtMountPlan(ns, ms[0]), ns);
      TameAppend(JwtMountPlan(ns, ms[0]), JwtPlan(ns, ms[1..]), ns);
    }
  }

  lemma FixedTame(args: Args)
    ensures AllTame(HeadPlan(args.platformNamespace), args.platformNamespace)
    ensures AllTame(PolicyPlan(args.policies), args.platformNamespace)
    ensures AllTame(MountsPlan(args), args.platformNamespace)
    ensures args.oidc.Some? ==> AllTame(OidcPlan(args.oidc.value), args.platformNamespace)
  {
    var ns := args.platformNamespace;
    assert AllTame(AuthMountsPlan(ns), ns) && AllTame(SecretMountsPlan(args), ns);
    TameAppend(AuthMountsPlan(ns), SecretMountsPlan(args), ns);
  }

  lemma PathsDiffer(path: string)
    requires "jwt-k8s-" <= path
    ensures path !in {"cert-fleet", "approle-bootstrap"}
  {
    assert path[0] == 'j';
    assert "cert-fleet"[0] == 'c' && "approle-bootstrap"[0] == 'a';
  }

  /** No mount the baseline creates refuses the documents the baseline writes to it. */
  lemma BaselineTypesFit(args: Args)
    requires args.platformNamespace != ""
    ensures TypesFit(Baseline(args))
  {
    var ns := args.platformNamespace;
    var oidc := if args.oidc.Some? then OidcPlan(args.oidc.value) else [];
    FixedTame(args);
    JwtTame(ns, args.jwtMounts);
    TameAppend(HeadPlan(ns), PolicyPlan(args.policies), ns);
    TameAppend(HeadPlan(ns) + PolicyPlan(args.policies), MountsPlan(args), ns);
    TameAppend(HeadPlan(ns) + PolicyPlan(args.policies) + MountsPlan(args), oidc, ns);
    TameAppend(HeadPlan(ns) + PolicyPlan(args.policies) + MountsPlan(args) + oidc, JwtPlan(ns, args.jwtMounts), ns);
    var plan := Baseline(args);
    forall i, j | 0 <= i < |plan| && 0 <= j < |plan| ensures Fit(plan[i], plan[j]) {
      TameFit(plan[i], plan[j], ns);
    }
  }

  lemma TameFit(a: Action, b: Action, ns: string)
    requires ns != "" && Tame(a, ns) && Tame(b, ns)
    ensures Fit(a, b)
  {
    if a.EnsureAuth? && Documents(b, a.ns, a.path) && "jwt-k8s-" <= b.path {
      PathsDiffer(b.path);
    }
  }

  lemma Regroup3<T>(a: seq<T>, b: seq<T>, c: seq<T>)
    ensures a + b + c == a + (b + c)
  {
  }

  lemma {:induction false} JwtPlanAppend(ns: string, a: seq<JwtMount>, b: seq<JwtMount>)
    ensures JwtPlan(ns, a + b) == JwtPlan(ns, a) + JwtPlan(ns, b)
    decreases |a|
  {
    if a == [] {
      assert a + b == b && [] + JwtPlan(ns, b) == JwtPlan(ns, b);
    } else {
      assert (a + b)[0] == a[0] && (a + b)[1..] == a[1..] + b;
      JwtPlanAppend(ns, a[1..], b);
      Regroup3(JwtMountPlan(ns, a[0]), JwtPlan(ns, a[1..]), JwtPlan(ns, b));
    }
  }

  lemma JwtPlanSnoc(ns: string, ms: seq<JwtMount>, m: JwtMount)
    ensures JwtPlan(ns, ms + [m]) == JwtPlan(ns, ms) + JwtMountPlan(ns, m)
  {
    JwtPlanAppend(ns, ms, [m]);
    assert [m][1..] == [];
    assert JwtPlan(ns, [m]) == JwtMountPlan(ns, m) + [] == JwtMountPlan(ns, m);
  }
}
