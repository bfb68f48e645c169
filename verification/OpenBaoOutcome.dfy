/** What the server holds after a completed baseline, key by key, in terms of what the command was given. */
module OpenBaoOutcome {
  import opened Prelude
  import opened BaoConvergence
  import opened OpenBaoPlan

  // ------------------------------------------------------------------------------------------
  // The outcome.

  /** The text of the last entry with this name. */
  function LastNamed(entries: seq<Named>, name: string): Option<string> {
    if entries == [] then None
    else
      var n := |entries| - 1;
      if entries[n].name == name then Some(entries[n].text) else LastNamed(entries[..n], name)
  }

  /** The last configuration given for the cluster. */
  function LastConfig(mounts: seq<JwtMount>, clusterId: string): Option<string> {
    if mounts == [] then None
    else
      var n := |mounts| - 1;
      if mounts[n].clusterId == clusterId && mounts[n].config.Some? then mounts[n].config
      else LastConfig(mounts[..n], clusterId)
  }

  /** The last text given for the cluster's role. */
  function LastRole(mounts: seq<JwtMount>, clusterId: string, role: string): Option<string> {
    if mounts == [] then None
    else
      var n := |mounts| - 1;
      if mounts[n].clusterId == clusterId && LastNamed(mounts[n].roles, role).Some?
      then LastNamed(mounts[n].roles, role)
      else LastRole(mounts[..n], clusterId, role)
  }

  predicate HasCluster(mounts: seq<JwtMount>, clusterId: string) {
    exists i | 0 <= i < |mounts| :: mounts[i].clusterId == clusterId
  }

  /** What is made where nothing was. */
  function Kept(before: Option<Value>, made: Value): Option<Value> {
    if before.Some? then before else Some(made)
  }

  /** A secret mount: made where nothing was, else only given its TTL, if there is one. */
  function Tuned(before: Option<Value>, kind: string, description: string, ttl: string, version: Option<int>)
    : Option<Value>
  {
    if before.None? then Some(Mounted(kind, description, if ttl == "" then None else Some(ttl), version))
    else if ttl != "" && before.value.Mounted? then Some(before.value.(maxTtl := Some(ttl)))
    else before
  }

  function Written(before: Option<Value>, text: Option<string>): Option<Value> {
    if text.Some? then Some(Document(text.value)) else before
  }

  /** The cluster whose mount has this path. */
  function ClusterAt(path: string): Option<string> {
    if "jwt-k8s-" <= path then Some(path[8..]) else None
  }

  /** What the server holds at a key after a completed baseline, given what it held there before. */
  function Expected(args: Args, before: Option<Value>, k: Key): Option<Value> {
    var platform := args.platformNamespace;
    match k
    case Namespace(name) => if name == platform then Kept(before, Present) else before
    case AuthMount(ns, path) =>
      if ns == "" && path == "oidc-operators" then
        Kept(before, Mounted("oidc", "Human operator login path", None, None))
      else if ns == platform && path == "cert-fleet" then
        Kept(before, Mounted("cert", "Fleet certificate authentication", None, None))
      else if ns == platform && path == "approle-bootstrap" then
        Kept(before, Mounted("approle", "Bootstrap-only AppRole path", None, None))
      else if ns == platform && ClusterAt(path).Some? && HasCluster(args.jwtMounts, ClusterAt(path).value) then
        Kept(before, Mounted("jwt", "Kubernetes JWT auth for " + ClusterAt(path).value, None, None))
      else before
    case SecretMount(ns, path) =>
      if ns != platform then before
      else if path == "kv-apps" then Tuned(before, "kv", "Application secrets", "", Some(2))
      else if path == "kv-shared" then Tuned(before, "kv", "Shared platform secrets", "", Some(2))
      else if path == "pki-k8s" then Tuned(before, "pki", "Kubernetes internal TLS PKI", args.pkiK8sMaxTtl, None)
      else if path == "pki-infra" then Tuned(before, "pki", "Infrastructure TLS PKI", args.pkiInfraMaxTtl, None)
      else before
    case Policy(ns, name) => if ns == "" then Written(before, LastNamed(args.policies, name)) else before
    case AuthConfig(ns, path) =>
      if ns == "" && path == "oidc-operators" then
        Written(before, if args.oidc.Some? then Some(args.oidc.value.config) else None)
      else if ns == platform && ClusterAt(path).Some? then
        Written(before, LastConfig(args.jwtMounts, ClusterAt(path).value))
      else before
    case AuthRole(ns, path, role) =>
      if ns == "" && path == "oidc-operators" then
        Written(before, if args.oidc.Some? then LastNamed(args.oidc.value.roles, role) else None)
      else if ns == platform && ClusterAt(path).Some? then
        Written(before, LastRole(args.jwtMounts, ClusterAt(path).value, role))
      else before
  }

  // ------------------------------------------------------------------------------------------
  // The parts of the plan, one by one.

  lemma FoldOne(k: Key, before: Option<Value>, a: Action)
    ensures Fold(k, before, [a]) == if KeyOf(a) == k then Some(Settle(a, before)) else before
  {
    assert [a][1..] == [];
  }

  lemma FoldTwo(k: Key, before: Option<Value>, a: Action, b: Action)
    ensures Fold(k, before, [a, b]) == Fold(k, Fold(k, before, [a]), [b])
  {
    FoldAppend(k, before, [a], [b]);
    assert [a] + [b] == [a, b];
  }

  lemma {:induction false} FoldPolicies(k: Key, before: Option<Value>, policies: seq<Named>)
    ensures Fold(k, before, PolicyPlan(policies)) ==
            if k.Policy? && k.ns == "" then Written(before, LastNamed(policies, k.name)) else before
    decreases |policies|
  {
    if policies != [] {
      var n := |policies| - 1;
      var last := PutPolicy("", policies[n].name, policies[n].text);
      assert PolicyPlan(policies) == PolicyPlan(policies[..n]) + [last];
      FoldPolicies(k, before, policies[..n]);
      FoldAppend(k, before, PolicyPlan(policies[..n]), [last]);
      FoldOne(k, Fold(k, before, PolicyPlan(policies[..n])), last);
    }
  }

  lemma {:induction false} FoldRoles(k: Key, before: Option<Value>, ns: string, path: string, roles: seq<Named>)
    ensures Fold(k, before, RolePlan(ns, path, roles)) ==
            if k.AuthRole? && k.ns == ns && k.path == path then Written(before, LastNamed(roles, k.role)) else before
    decreases |roles|
  {
    if roles != [] {
      var n := |roles| - 1;
      var last := PutRole(ns, path, roles[n].name, roles[n].text);
      assert RolePlan(ns, path, roles) == RolePlan(ns, path, roles[..n]) + [last];
      FoldRoles(k, before, ns, path, roles[..n]);
      FoldAppend(k, before, RolePlan(ns, path, roles[..n]), [last]);
      FoldOne(k, Fold(k, before, RolePlan(ns, path, roles[..n])), last);
    }
  }

  /** What the operators' specification leaves at a key. */
  lemma FoldOidc(k: Key, before: Option<Value>, spec: OidcSpec)
    ensures Fold(k, before, OidcPlan(spec)) ==
            (if k == AuthConfig("", "oidc-operators") then Some(Document(spec.config))
             else if k.AuthRole? && k.ns == "" && k.path == "oidc-operators"
             then Written(before, LastNamed(spec.roles, k.role))
             else before)
  {
    var config := PutConfig("", "oidc-operators", spec.config);
    FoldAppend(k, before, [config], RolePlan("", "oidc-operators", spec.roles));
    FoldOne(k, before, config);
    FoldRoles(k, Fold(k, before, [config]), "", "oidc-operators", spec.roles);
  }

  lemma ClusterPath(id: string, path: string)
    ensures path == "jwt-k8s-" + id <==> ClusterAt(path) == Some(id)
  {
    if "jwt-k8s-" <= path {
      assert path == "jwt-k8s-" + path[8..];
    }
    assert ("jwt-k8s-" + id)[8..] == id;
  }

  /** What one cluster's mount leaves at a key. */
  function AfterMount(k: Key, before: Option<Value>, ns: string, m: JwtMount): Option<Value> {
    match k
    case AuthMount(n, path) =>
      if n == ns && ClusterAt(path) == Some(m.clusterId)
      then Kept(before, Mounted("jwt", "Kubernetes JWT auth for " + m.clusterId, None, None)) else before
    case AuthConfig(n, path) =>
      if n == ns && ClusterAt(path) == Some(m.clusterId) then Written(before, m.config) else before
    case AuthRole(n, path, role) =>
      if n == ns && ClusterAt(path) == Some(m.clusterId) then Written(before, LastNamed(m.roles, role)) else before
    case _ => before
  }

  lemma FoldMount(k: Key, before: Option<Value>, ns: string, m: JwtMount)
    ensures Fold(k, before, JwtMountPlan(ns, m)) == AfterMount(k, before, ns, m)
  {
    var path := MountPath(m);
    var mount := EnsureAuth(ns, path, "jwt", "Kubernetes JWT auth for " + m.clusterId);
    var write := if m.config.Some? then [PutConfig(ns, path, m.config.value)] else [];
    FoldAppend(k, before, [mount] + write, RolePlan(ns, path, m.roles));
    FoldAppend(k, before, [mount], write);
    FoldOne(k, before, mount);
    if m.config.Some? { FoldOne(k, Fold(k, before, [mount]), PutConfig(ns, path, m.config.value)); }
    FoldRoles(k, Fold(k, before, [mount] + write), ns, path, m.roles);
    if k.AuthMount? || k.AuthConfig? || k.AuthRole? {
      ClusterPath(m.clusterId, k.path);
    }
  }

  /** What all the clusters' mounts leave at a key. */
  function AfterMounts(k: Key, before: Option<Value>, ns: string, mounts: seq<JwtMount>): Option<Value> {
    match k
    case AuthMount(n, path) =>
      if n == ns && ClusterAt(path).Some? && HasCluster(mounts, ClusterAt(path).value)
      then Kept(before, Mounted("jwt", "Kubernetes JWT auth for " + ClusterAt(path).value, None, None)) else before
    case AuthConfig(n, path) =>
      if n == ns && ClusterAt(path).Some? then Written(before, LastConfig(mounts, ClusterAt(path).value)) else before
    case AuthRole(n, path, role) =>
      if n == ns && ClusterAt(path).Some?
      then Written(before, LastRole(mounts, ClusterAt(path).value, role)) else before
    case _ => before
  }

  lemma AfterOneMore(k: Key, before: Option<Value>, ns: string, mounts: seq<JwtMount>)
    requires mounts != []
    ensures var n := |mounts| - 1;
            AfterMounts(k, before, ns, mounts) == AfterMount(k, AfterMounts(k, before, ns, mounts[..n]), ns, mounts[n])
  {
    var n := |mounts| - 1;
    if k.AuthMount? && ClusterAt(k.path).Some? {
      var id := ClusterAt(k.path).value;
      assert HasCluster(mounts, id) <==> HasCluster(mounts[..n], id) || mounts[n].clusterId == id by {
        if HasCluster(mounts[..n], id) {
          var i :| 0 <= i < n && mounts[..n][i].clusterId == id;
          assert mounts[i].clusterId == id;
        }
        if i :| 0 <= i < |mounts| && mounts[i].clusterId == id && i < n {
          assert mounts[..n][i].clusterId == id;
        }
      }
    }
  }

  lemma {:induction false} FoldMounts(k: Key, before: Option<Value>, ns: string, mounts: seq<JwtMount>)
    ensures Fold(k, before, JwtPlan(ns, mounts)) == AfterMounts(k, before, ns, mounts)
    decreases |mounts|
  {
    if mounts != [] {
      var n := |mounts| - 1;
      assert mounts == mounts[..n] + [mounts[n]];
      JwtPlanSnoc(ns, mounts[..n], mounts[n]);
      FoldMounts(k, before, ns, mounts[..n]);
      FoldAppend(k, before, JwtPlan(ns, mounts[..n]), JwtMountPlan(ns, mounts[n]));
      FoldMount(k, Fold(k, before, JwtPlan(ns, mounts[..n])), ns, mounts[n]);
      AfterOneMore(k, before, ns, mounts);
    }
  }

  // ------------------------------------------------------------------------------------------
  // The fixed parts.

  /** What the namespace and the login mount leave at a key. */
  lemma FoldHead(k: Key, before: Option<Value>, ns: string)
    ensures Fold(k, before, HeadPlan(ns)) ==
            (if k == Namespace(ns) then Kept(before, Present)
             else if k == AuthMount("", "oidc-operators")
             then Kept(before, Mounted("oidc", "Human operator login path", None, None))
             else before)
  {
    var a, b := HeadPlan(ns)[0], HeadPlan(ns)[1];
    FoldTwo(k, before, a, b);
    FoldOne(k, before, a);
    FoldOne(k, Fold(k, before, [a]), b);
    assert HeadPlan(ns) == [a, b];
  }

  /** What the two fixed auth mounts leave at a key. */
  lemma FoldAuthMounts(k: Key, before: Option<Value>, ns: string)
    ensures Fold(k, before, AuthMountsPlan(ns)) ==
            (if k == AuthMount(ns, "cert-fleet")
             then Kept(before, Mounted("cert", "Fleet certificate authentication", None, None))
             else if k == AuthMount(ns, "approle-bootstrap")
             then Kept(before, Mounted("approle", "Bootstrap-only AppRole path", None, None))
             else before)
  {
    var a, b := AuthMountsPlan(ns)[0], AuthMountsPlan(ns)[1];
    FoldTwo(k, before, a, b);
    FoldOne(k, before, a);
    FoldOne(k, Fold(k, before, [a]), b);
    assert AuthMountsPlan(ns) == [a, b];
    assert "cert-fleet"[0] != "approle-bootstrap"[0];
  }

  lemma FoldSecret(k: Key, before: Option<Value>, ns: string, path: string, kind: string, description: string,
                   ttl: string, version: Option<int>)
    ensures Fold(k, before, [EnsureSecret(ns, path, kind, description, ttl, version)]) ==
            if k == SecretMount(ns, path) then Tuned(before, kind, description, ttl, version) else before
  {
    FoldOne(k, before, EnsureSecret(ns, path, kind, description, ttl, version));
  }

  lemma SecretPathsDiffer()
    ensures var paths := ["kv-apps", "kv-shared", "pki-k8s", "pki-infra"];
            forall i, j :: 0 <= i < j < 4 ==> paths[i] != paths[j]
  {
    assert "kv-apps"[3] != "kv-shared"[3] && "pki-k8s"[4] != "pki-infra"[4] && "kv-apps"[0] != "pki-k8s"[0];
    assert "kv-apps"[0] != "pki-infra"[0] && "kv-shared"[0] != "pki-k8s"[0] && "kv-shared"[0] != "pki-infra"[0];
  }

  /** What the four secret mounts leave at a key. */
  lemma FoldSecretMounts(k: Key, before: Option<Value>, args: Args)
    ensures Fold(k, before, SecretMountsPlan(args)) ==
            if !k.SecretMount? then before else Expected(args, before, k)
  {
    var ns, plan := args.platformNamespace, SecretMountsPlan(args);
    var a, b, c, d := plan[0], plan[1], plan[2], plan[3];
    assert plan == [a, b] + [c, d];
    FoldAppend(k, before, [a, b], [c, d]);
    FoldTwo(k, before, a, b);
    FoldTwo(k, Fold(k, before, [a, b]), c, d);
    FoldSecret(k, before, ns, "kv-apps", "kv", "Application secrets", "", Some(2));
    FoldSecret(k, Fold(k, before, [a]), ns, "kv-shared", "kv", "Shared platform secrets", "", Some(2));
    var half := Fold(k, before, [a, b]);
    FoldSecret(k, half, ns, "pki-k8s", "pki", "Kubernetes internal TLS PKI", args.pkiK8sMaxTtl, None);
    FoldSecret(k, Fold(k, half, [c]), ns, "pki-infra", "pki", "Infrastructure TLS PKI", args.pkiInfraMaxTtl, None);
    SecretPathsDiffer();
  }

  // ------------------------------------------------------------------------------------------
  // The whole plan.

  lemma ClusterPathsApart(path: string)
    requires ClusterAt(path).Some?
    ensures path !in {"cert-fleet", "approle-bootstrap"}
  {
    PathsDiffer(path);
  }

  /** What the parts that do not depend on the two specifications leave at a key. */
  lemma FoldFixed(k: Key, before: Option<Value>, args: Args)
    requires args.platformNamespace != ""
    ensures Fold(k, before, HeadPlan(args.platformNamespace) + PolicyPlan(args.policies) + MountsPlan(args)) ==
            Expected(args.(oidc := None, jwtMounts := []), before, k)
  {
    var ns := args.platformNamespace;
    FoldAppend(k, before, HeadPlan(ns) + PolicyPlan(args.policies), MountsPlan(args));
    FoldAppend(k, before, HeadPlan(ns), PolicyPlan(args.policies));
    FoldHead(k, before, ns);
    var v1 := Fold(k, before, HeadPlan(ns));
    FoldPolicies(k, v1, args.policies);
    var v2 := Fold(k, v1, PolicyPlan(args.policies));
    FoldAppend(k, v2, AuthMountsPlan(ns), SecretMountsPlan(args));
    FoldAuthMounts(k, v2, ns);
    FoldSecretMounts(k, Fold(k, v2, AuthMountsPlan(ns)), args);
  }

  /** What the optional operators' specification leaves at a key. */
  function AfterOidc(k: Key, before: Option<Value>, oidc: Option<OidcSpec>): Option<Value> {
    if oidc.None? then before
    else if k == AuthConfig("", "oidc-operators") then Some(Document(oidc.value.config))
    else if k.AuthRole? && k.ns == "" && k.path == "oidc-operators"
    then Written(before, LastNamed(oidc.value.roles, k.role))
    else before
  }

  /** The two specifications touch none of the keys the fixed parts do, nor each other's. */
  lemma ExpectedInParts(k: Key, before: Option<Value>, args: Args)
    requires args.platformNamespace != ""
    ensures var fixed := Expected(args.(oidc := None, jwtMounts := []), before, k);
            Expected(args, before, k) ==
            AfterMounts(k, AfterOidc(k, fixed, args.oidc), args.platformNamespace, args.jwtMounts)
  {
    match k
    case AuthMount(_, path) => if ClusterAt(path).Some? { ClusterPathsApart(path); }
    case _ =>
  }

  lemma FoldBaseline(k: Key, before: Option<Value>, args: Args)
    requires args.platformNamespace != ""
    ensures Fold(k, before, Baseline(args)) == Expected(args, before, k)
  {
    var ns := args.platformNamespace;
    var fixed := HeadPlan(ns) + PolicyPlan(args.policies) + MountsPlan(args);
    var oidc := if args.oidc.Some? then OidcPlan(args.oidc.value) else [];
    FoldAppend(k, before, fixed + oidc, JwtPlan(ns, args.jwtMounts));
    FoldAppend(k, before, fixed, oidc);
    FoldFixed(k, before, args);
    var v := Fold(k, before, fixed);
    if args.oidc.Some? { FoldOidc(k, v, args.oidc.value); }
    assert Fold(k, v, oidc) == AfterOidc(k, v, args.oidc);
    FoldMounts(k, AfterOidc(k, v, args.oidc), ns, args.jwtMounts);
    ExpectedInParts(k, before, args);
  }

  /** After a completed run every key holds exactly what the arguments of the command say. */
  lemma BaselineOutcome(s: Server, args: Args, k: Key)
    requires WellFormed(s) && args.platformNamespace != "" && Completes(s, Baseline(args))
    ensures At(Run(s, Baseline(args)), k) == Expected(args, At(s, k), k)
  {
    var plan := Baseline(args);
    BaselineSound(args);
    BaselineTypesFit(args);
    RunReconciles(s, plan, {}, {});
    assert plan[..|plan|] == plan;
    ReconcileAt(s, plan, k);
    FoldBaseline(k, At(s, k), args);
  }

  // ------------------------------------------------------------------------------------------
  // Which servers refuse nothing.

  /** An auth mount that is there has one of the types that take configuration and roles. */
  predicate MountFits(s: Server, ns: string, path: string) {
    AuthMount(ns, path) in s ==>
      s[AuthMount(ns, path)].Mounted? && s[AuthMount(ns, path)].kind in {"oidc", "jwt"}
  }

  lemma TakeAppend(s: Server, a: seq<Action>, b: seq<Action>)
    ensures MountsTake(s, a + b) <==> MountsTake(s, a) && MountsTake(s, b)
  {
    if MountsTake(s, a + b) {
      forall i | 0 <= i < |a| ensures Takes(s, a[i]) { assert (a + b)[i] == a[i]; }
      forall i | 0 <= i < |b| ensures Takes(s, b[i]) { assert (a + b)[|a| + i] == b[i]; }
    }
  }

  lemma TakeRoles(s: Server, ns: string, path: string, roles: seq<Named>)
    ensures MountsTake(s, RolePlan(ns, path, roles)) <==> roles == [] || MountFits(s, ns, path)
  {
    if roles != [] {
      assert Takes(s, RolePlan(ns, path, roles)[0]) <==> MountFits(s, ns, path);
    }
  }

  predicate MountTakes(s: Server, ns: string, m: JwtMount) {
    m.config.Some? || m.roles != [] ==> MountFits(s, ns, "jwt-k8s-" + m.clusterId)
  }

  lemma TakeMount(s: Server, ns: string, m: JwtMount)
    ensures MountsTake(s, JwtMountPlan(ns, m)) <==> MountTakes(s, ns, m)
  {
    var path := MountPath(m);
    var mount := [EnsureAuth(ns, path, "jwt", "Kubernetes JWT auth for " + m.clusterId)];
    var write := if m.config.Some? then [PutConfig(ns, path, m.config.value)] else [];
    TakeAppend(s, mount + write, RolePlan(ns, path, m.roles));
    TakeAppend(s, mount, write);
    TakeRoles(s, ns, path, m.roles);
    if m.config.Some? {
      assert Takes(s, write[0]) <==> MountFits(s, ns, path);
    }
  }

  lemma {:induction false} TakeMounts(s: Server, ns: string, mounts: seq<JwtMount>)
    ensures MountsTake(s, JwtPlan(ns, mounts)) <==> forall i :: 0 <= i < |mounts| ==> MountTakes(s, ns, mounts[i])
    decreases |mounts|
  {
    if mounts != [] {
      TakeMount(s, ns, mounts[0]);
      TakeMounts(s, ns, mounts[1..]);
      TakeAppend(s, JwtMountPlan(ns, mounts[0]), JwtPlan(ns, mounts[1..]));
      assert forall i :: 0 < i < |mounts| ==> mounts[i] == mounts[1..][i - 1];
    }
  }

  /**
   No mount of the wrong type is in the way of the baseline if and only if the operators' login mount, when it is to
   be configured, and every cluster's mount that gets a configuration or a role, are absent or of the type
   `oidc` or `jwt`.
   */
  lemma MountsTakeIff(s: Server, args: Args)
    ensures MountsTake(s, Baseline(args)) <==>
            && (args.oidc.Some? ==> MountFits(s, "", "oidc-operators"))
            && forall i :: 0 <= i < |args.jwtMounts| ==> MountTakes(s, args.platformNamespace, args.jwtMounts[i])
  {
    var ns := args.platformNamespace;
    var oidc := if args.oidc.Some? then OidcPlan(args.oidc.value) else [];
    TakeAppend(s, HeadPlan(ns) + PolicyPlan(args.policies) + MountsPlan(args) + oidc, JwtPlan(ns, args.jwtMounts));
    TakeAppend(s, HeadPlan(ns) + PolicyPlan(args.policies) + MountsPlan(args), oidc);
    TakeAppend(s, HeadPlan(ns) + PolicyPlan(args.policies), MountsPlan(args));
    TakeAppend(s, HeadPlan(ns), PolicyPlan(args.policies));
    TakeAppend(s, AuthMountsPlan(ns), SecretMountsPlan(args));
    TakeMounts(s, ns, args.jwtMounts);
    if args.oidc.Some? {
      var config := PutConfig("", "oidc-operators", args.oidc.value.config);
      TakeAppend(s, [config], RolePlan("", "oidc-operators", args.oidc.value.roles));
      TakeRoles(s, "", "oidc-operators", args.oidc.value.roles);
      assert Takes(s, [config][0]) <==> MountFits(s, "", "oidc-operators");
    }
  }
}
